/**
 * The CBOR decoder used for passkeys, and the encoding it undoes (RFC 8949,
 * section 3): unsigned and negative integers with arguments of up to 32 bits,
 * byte and text strings, arrays, maps, and false, true and null.
 */
module Cbor {
  import opened Outcome
  import opened JsText

  type Byte = b: int | 0 <= b < 256
  type Bytes = seq<Byte>

  /**
   * Text strings are kept as their UTF-8 bytes.  Undefined and NaN are not CBOR:
   * they are what an argument byte missing from the end of the buffer turns into.
   */
  datatype Value =
    | Num(n: int)
    | ByteString(bytes: Bytes)
    | TextString(utf8: Bytes)
    | Array(items: seq<Value>)
    | Map(entries: Entries)
    | Bool(b: bool)
    | Null
    | Undefined
    | NaN

  datatype Entry = Entry(key: Value, value: Value)

  type Entries = seq<Entry>

  datatype Error = UnsupportedLength | OutOfRange | InvalidCbor | UnsupportedValue

  /** An offset; a string of undefined length ends nowhere, at an offset that is not a number. */
  datatype Place = At(n: nat) | Nowhere

  type Decoded = Result<(Value, Place), Error>

  // -------------------------------------------------------------- decoder

  function Word16(buf: Bytes, i: nat): nat
    requires i + 2 <= |buf|
  {
    var high: nat := buf[i];
    high * 256 + buf[i + 1]
  }

  function Word32(buf: Bytes, i: nat): nat
    requires i + 4 <= |buf|
  {
    Word16(buf, i) * 65536 + Word16(buf, i + 2)
  }

  /**
   * The argument of an initial byte with additional information ai, and the
   * offset after it.  Two and four bytes are read by a checked method; a single
   * byte is indexed, and past the end it is undefined.
   */
  function ReadLength(buf: Bytes, offset: nat, ai: nat): (r: Result<(Option<nat>, nat), Error>)
    ensures r.Ok? ==> offset <= r.value.1
  {
    if ai < 24 then Ok((Some(ai), offset))
    else if ai == 24 then (if offset < |buf| then Ok((Some(buf[offset]), offset + 1)) else Ok((None, offset + 1)))
    else if ai == 25 then (if offset + 2 <= |buf| then Ok((Some(Word16(buf, offset)), offset + 2)) else Err(OutOfRange))
    else if ai == 26 then (if offset + 4 <= |buf| then Ok((Some(Word32(buf, offset)), offset + 4)) else Err(OutOfRange))
    else Err(UnsupportedLength)
  }

  /** Keys that a JavaScript Map compares by value; all others are distinct objects. */
  predicate ByValue(key: Value) {
    key.Num? || key.TextString? || key.Bool? || key.Null? || key.Undefined? || key.NaN?
  }

  function SetEntry(entries: Entries, key: Value, value: Value): Entries {
    if |entries| == 0 then [Entry(key, value)]
    else if ByValue(key) && entries[0].key == key then [Entry(key, value)] + entries[1..]
    else [entries[0]] + SetEntry(entries[1..], key, value)
  }

  /** A key that is compared by value replaces the value of its first equal, in place, or comes last. */
  lemma {:induction false} SetEntryReplaces(entries: Entries, key: Value, value: Value) returns (i: nat)
    requires ByValue(key)
    ensures i <= |entries| && forall j :: 0 <= j < i ==> entries[j].key != key
    ensures i < |entries| ==> entries[i].key == key && SetEntry(entries, key, value) == entries[i := Entry(key, value)]
    ensures i == |entries| ==> SetEntry(entries, key, value) == entries + [Entry(key, value)]
  {
    i := 0;
    if |entries| > 0 && entries[0].key != key {
      var j := SetEntryReplaces(entries[1..], key, value);
      i := j + 1;
      assert forall k :: 0 <= k < j ==> entries[k + 1] == entries[1..][k];
      assert entries == [entries[0]] + entries[1..];
    }
  }

  /** No byte of the buffer is at or after the place. */
  predicate Beyond(buf: Bytes, at: Place) { at.Nowhere? || |buf| <= at.n }

  /** The place is not the end of something inside the buffer. */
  predicate Past(buf: Bytes, at: Place) { at.Nowhere? || |buf| < at.n }

  function Next(at: Place): Place { if at.Nowhere? then Nowhere else At(at.n + 1) }

  function Remaining(buf: Bytes, at: Place): nat { if Beyond(buf, at) then 0 else |buf| - at.n }

  /** What a head with a missing argument byte decodes to: comparisons with undefined are false. */
  function WithoutLength(major: nat, start: nat): (Value, Place)
    requires major < 6
  {
    match major
    case 0 => (Undefined, At(start))
    case 1 => (NaN, At(start))
    case 2 => (ByteString([]), Nowhere)
    case 3 => (TextString([]), Nowhere)
    case 4 => (Array([]), At(start))
    case _ => (Map([]), At(start))
  }

  /** Reading past the end yields the number 0: the missing initial byte counts as zero bits. */
  function Decode(buf: Bytes, at: Place): (r: Decoded)
    ensures r.Ok? && r.value.1.At? ==> at.At? && at.n < r.value.1.n
    decreases Remaining(buf, at), 0, 0
  {
    if Beyond(buf, at) then Ok((Num(0), Next(at)))
    else
      var major, ai := buf[at.n] / 32, buf[at.n] % 32;
      if major == 7 then
        if ai == 20 then Ok((Bool(false), At(at.n + 1)))
        else if ai == 21 then Ok((Bool(true), At(at.n + 1)))
        else if ai == 22 then Ok((Null, At(at.n + 1)))
        else Err(UnsupportedValue)
      else if major == 6 then Err(UnsupportedValue)
      else
        var (length, start) :- ReadLength(buf, at.n + 1, ai);
        if length.None? then Ok(WithoutLength(major, start))
        else if major == 0 then Ok((Num(length.value), At(start)))
        else if major == 1 then Ok((Num(-1 - length.value), At(start)))
        else if major == 2 || major == 3 then
          var end := start + length.value;
          if end > |buf| then Err(InvalidCbor)
          else Ok((if major == 2 then ByteString(buf[start..end]) else TextString(buf[start..end]), At(end)))
        else if major == 4 then DecodeItems(buf, At(start), length.value, [])
        else DecodeEntries(buf, At(start), length.value, [])
  }

  function DecodeItems(buf: Bytes, at: Place, count: nat, items: seq<Value>): (r: Decoded)
    ensures r.Ok? && r.value.1.At? ==> at.At? && at.n <= r.value.1.n
    decreases Remaining(buf, at), 1, count
  {
    if count == 0 then Ok((Array(items), at))
    else
      var (x, next) :- Decode(buf, at);
      DecodeItems(buf, next, count - 1, items + [x])
  }

  function DecodeEntries(buf: Bytes, at: Place, count: nat, entries: Entries): (r: Decoded)
    ensures r.Ok? && r.value.1.At? ==> at.At? && at.n <= r.value.1.n
    decreases Remaining(buf, at), 1, count
  {
    if count == 0 then Ok((Map(entries), at))
    else
      var (k, middle) :- Decode(buf, at);
      var (v, next) :- Decode(buf, middle);
      DecodeEntries(buf, next, count - 1, SetEntry(entries, k, v))
  }

  method ReadLengthAt(buf: Bytes, offset: nat, ai: nat) returns (r: Result<(Option<nat>, nat), Error>)
    ensures r == ReadLength(buf, offset, ai)
  {
    if ai < 24 { return Ok((Some(ai), offset)); }
    if ai == 24 { return Ok((if offset < |buf| then Some(buf[offset]) else None, offset + 1)); }
    var width := if ai == 25 then 2 else if ai == 26 then 4 else 0;
    if width == 0 { return Err(UnsupportedLength); }
    if offset + width > |buf| { return Err(OutOfRange); }
    var length: nat := 0;
    for k := 0 to width
      invariant k == 0 ==> length == 0
      invariant k == 1 ==> length == buf[offset]
      invariant k == 2 ==> length == Word16(buf, offset)
      invariant k == 3 ==> length == Word16(buf, offset) * 256 + buf[offset + 2]
      invariant k == 4 ==> length == Word32(buf, offset)
    {
      length := length * 256 + buf[offset + k];
    }
    return Ok((Some(length), offset + width));
  }

  method DecodeCbor(buf: Bytes, at: Place) returns (r: Decoded)
    ensures r == Decode(buf, at)
    decreases Remaining(buf, at), 0
  {
    if Beyond(buf, at) { return Ok((Num(0), Next(at))); }
    var first := buf[at.n];
    var offset := at.n + 1;
    var major, ai := first / 32, first % 32;
    if major == 7 {
      if ai == 20 { return Ok((Bool(false), At(offset))); }
      if ai == 21 { return Ok((Bool(true), At(offset))); }
      if ai == 22 { return Ok((Null, At(offset))); }
      return Err(UnsupportedValue);
    }
    if major == 6 { return Err(UnsupportedValue); }
    var head :- ReadLengthAt(buf, offset, ai);
    offset := head.1;
    if head.0.None? { return Ok(WithoutLength(major, offset)); }
    var length := head.0.value;
    if major == 0 { return Ok((Num(length), At(offset))); }
    if major == 1 { return Ok((Num(-1 - length), At(offset))); }
    if major == 2 || major == 3 {
      var end := offset + length;
      if end > |buf| { return Err(InvalidCbor); }
      return Ok((if major == 2 then ByteString(buf[offset..end]) else TextString(buf[offset..end]), At(end)));
    }
    if major == 4 {
      r := DecodeArray(buf, At(offset), length);
    } else {
      r := DecodeMap(buf, At(offset), length);
    }
  }

  method DecodeArray(buf: Bytes, start: Place, length: nat) returns (r: Decoded)
    ensures r == DecodeItems(buf, start, length, [])
    decreases Remaining(buf, start), 1
  {
    hide Decode;
    var items: seq<Value> := [];
    var at := start;
    for i := 0 to length
      invariant at.At? ==> start.At? && start.n <= at.n
      invariant DecodeItems(buf, start, length, []) == DecodeItems(buf, at, length - i, items)
    {
      var x :- DecodeCbor(buf, at);
      items := items + [x.0];
      at := x.1;
    }
    return Ok((Array(items), at));
  }

  method DecodeMap(buf: Bytes, start: Place, length: nat) returns (r: Decoded)
    ensures r == DecodeEntries(buf, start, length, [])
    decreases Remaining(buf, start), 1
  {
    hide Decode;
    var entries: Entries := [];
    var at := start;
    for i := 0 to length
      invariant at.At? ==> start.At? && start.n <= at.n
      invariant DecodeEntries(buf, start, length, []) == DecodeEntries(buf, at, length - i, entries)
    {
      var k :- DecodeCbor(buf, at);
      var v :- DecodeCbor(buf, k.1);
      entries := SetEntry(entries, k.0, v.0);
      at := v.1;
    }
    return Ok((Map(entries), at));
  }

  // -------------------------------------------------------------- encoder

  const LIMIT := 0x1_0000_0000

  /** Initial byte and argument in the shortest form. */
  function Head(major: nat, n: nat): Bytes
    requires major < 8 && n < LIMIT
  {
    if n < 24 then [major * 32 + n]
    else if n < 256 then [major * 32 + 24, n]
    else if n < 65536 then [major * 32 + 25, n / 256, n % 256]
    else [major * 32 + 26, n / 0x100_0000, n / 0x1_0000 % 256, n / 256 % 256, n % 256]
  }

  predicate KeysDistinct(entries: Entries) {
    forall i, j :: 0 <= i < j < |entries| ==> entries[i].key != entries[j].key
  }

  predicate Supported(v: Value) {
    match v
    case Num(n) => -LIMIT <= n < LIMIT
    case ByteString(b) => |b| < LIMIT
    case TextString(t) => |t| < LIMIT
    case Array(items) => |items| < LIMIT && forall x <- items :: Supported(x)
    case Map(entries) =>
      |entries| < LIMIT && KeysDistinct(entries) &&
      forall e <- entries :: (e.key.Num? || e.key.TextString?) && Supported(e.key) && Supported(e.value)
    case Bool(_) => true
    case Null => true
    case Undefined => false
    case NaN => false
  }

  function Encode(v: Value): Bytes
    requires Supported(v)
    decreases v, 0
  {
    match v
    case Num(n) => if n >= 0 then Head(0, n) else Head(1, -1 - n)
    case ByteString(b) => Head(2, |b|) + b
    case TextString(t) => Head(3, |t|) + t
    case Array(items) => Head(4, |items|) + EncodeItems(items)
    case Map(entries) => Head(5, |entries|) + EncodeEntries(entries)
    case Bool(b) => [if b then 0xF5 else 0xF4]
    case Null => [0xF6]
  }

  function EncodeItems(items: seq<Value>): Bytes
    requires forall x <- items :: Supported(x)
    decreases items, 1
  {
    if |items| == 0 then [] else Encode(items[0]) + EncodeItems(items[1..])
  }

  ghost predicate EntriesOk(entries: Entries) {
    forall e <- entries :: (e.key.Num? || e.key.TextString?) && Supported(e.key) && Supported(e.value)
  }

  function EncodeEntries(entries: Entries): Bytes
    requires forall e <- entries :: (e.key.Num? || e.key.TextString?) && Supported(e.key) && Supported(e.value)
    decreases entries, 1
  {
    if |entries| == 0 then [] else
      assert entries[0].key < entries[0] && entries[0].value < entries[0];
      Encode(entries[0].key) + (Encode(entries[0].value) + EncodeEntries(entries[1..]))
  }

  // ----------------------------------------------------------- round trip

  lemma ShortHeadReads(buf: Bytes, i: nat, major: nat, n: nat)
    requires major < 8 && n < 256 && OnAt(buf, i, Head(major, n))
    ensures i < |buf| && buf[i] / 32 == major
    ensures ReadLength(buf, i + 1, buf[i] % 32) == Ok((Some(n), i + |Head(major, n)|))
  {
    var h := Head(major, n);
    assert buf[i] == h[0];
    if n >= 24 { assert buf[i + 1] == h[1]; }
  }

  lemma TwoByteHeadReads(buf: Bytes, i: nat, major: nat, n: nat)
    requires major < 8 && 256 <= n < 65536 && OnAt(buf, i, Head(major, n))
    ensures i < |buf| && buf[i] / 32 == major
    ensures ReadLength(buf, i + 1, buf[i] % 32) == Ok((Some(n), i + |Head(major, n)|))
  {
    var h := Head(major, n);
    assert buf[i] == h[0] && buf[i + 1] == h[1] && buf[i + 2] == h[2];
    assert buf[i] % 32 == 25;
  }

  lemma FourBytes(n: nat)
    requires n < LIMIT
    ensures (n / 0x100_0000 * 256 + n / 0x1_0000 % 256) * 65536 + (n / 256 % 256 * 256 + n % 256) == n
  {
    var a, b := n / 256, n / 0x1_0000;
    assert n == a * 256 + n % 256;
    assert a == b * 256 + a % 256 by { assert b == a / 256; }
    assert b == n / 0x100_0000 * 256 + b % 256 by { assert n / 0x100_0000 == b / 256; }
  }

  lemma FourByteHeadReads(buf: Bytes, i: nat, major: nat, n: nat)
    requires major < 8 && 65536 <= n < LIMIT && OnAt(buf, i, Head(major, n))
    ensures i < |buf| && buf[i] / 32 == major
    ensures ReadLength(buf, i + 1, buf[i] % 32) == Ok((Some(n), i + |Head(major, n)|))
  {
    var h := Head(major, n);
    assert buf[i] == h[0] && buf[i + 1] == h[1] && buf[i + 2] == h[2] && buf[i + 3] == h[3] && buf[i + 4] == h[4];
    assert buf[i] % 32 == 26;
    assert Word32(buf, i + 1) == n by { FourBytes(n); }
  }

  /** A head is read back with its major type, its argument and its length. */
  lemma HeadReads(buf: Bytes, i: nat, major: nat, n: nat)
    requires major < 8 && n < LIMIT && OnAt(buf, i, Head(major, n))
    ensures i < |buf| && buf[i] / 32 == major
    ensures ReadLength(buf, i + 1, buf[i] % 32) == Ok((Some(n), i + |Head(major, n)|))
  {
    hide Head, ReadLength, OnAt;
    if n < 256 {
      ShortHeadReads(buf, i, major, n);
    } else if n < 65536 {
      TwoByteHeadReads(buf, i, major, n);
    } else {
      FourByteHeadReads(buf, i, major, n);
    }
  }

  /** What the decoder does after the head. */
  lemma DecodeAfterHead(buf: Bytes, i: nat, major: nat, n: nat, start: nat)
    requires i < |buf| && major < 6 && buf[i] / 32 == major && ReadLength(buf, i + 1, buf[i] % 32) == Ok((Some(n), start))
    ensures major == 0 ==> Decode(buf, At(i)) == Ok((Num(n), At(start)))
    ensures major == 1 ==> Decode(buf, At(i)) == Ok((Num(-1 - n), At(start)))
    ensures major == 2 && start + n <= |buf| ==> Decode(buf, At(i)) == Ok((ByteString(buf[start..start + n]), At(start + n)))
    ensures major == 3 && start + n <= |buf| ==> Decode(buf, At(i)) == Ok((TextString(buf[start..start + n]), At(start + n)))
    ensures major == 4 ==> Decode(buf, At(i)) == DecodeItems(buf, At(start), n, [])
    ensures major == 5 ==> Decode(buf, At(i)) == DecodeEntries(buf, At(start), n, [])
  {
  }

  lemma SimpleReads(buf: Bytes, i: nat, v: Value)
    requires (v.Bool? || v.Null?) && OnAt(buf, i, Encode(v))
    ensures Decode(buf, At(i)) == Ok((v, At(i + 1)))
  {
    assert buf[i] == Encode(v)[0];
  }

  lemma SliceAt(buf: Bytes, i: nat, part: Bytes)
    requires OnAt(buf, i, part)
    ensures i + |part| <= |buf| && buf[i..i + |part|] == part
  {
  }

  lemma {:induction false} SetNewEntry(entries: Entries, key: Value, value: Value)
    requires forall k :: 0 <= k < |entries| ==> entries[k].key != key
    ensures SetEntry(entries, key, value) == entries + [Entry(key, value)]
  {
    if |entries| > 0 {
      SetNewEntry(entries[1..], key, value);
      assert [entries[0]] + (entries[1..] + [Entry(key, value)]) == entries + [Entry(key, value)];
    }
  }

  /** The encoding of each kind of value starts with a head. */
  lemma EncodeCases(v: Value)
    requires Supported(v)
    ensures !v.Undefined? && !v.NaN?
    ensures v.Num? ==> -LIMIT <= v.n < LIMIT && Encode(v) == (if v.n >= 0 then Head(0, v.n) else Head(1, -1 - v.n))
    ensures v.ByteString? ==> |v.bytes| < LIMIT && Encode(v) == Head(2, |v.bytes|) + v.bytes
    ensures v.TextString? ==> |v.utf8| < LIMIT && Encode(v) == Head(3, |v.utf8|) + v.utf8
    ensures v.Array? ==> |v.items| < LIMIT && (forall x <- v.items :: Supported(x))
    ensures v.Array? ==> Encode(v) == Head(4, |v.items|) + EncodeItems(v.items)
    ensures v.Map? ==> |v.entries| < LIMIT && KeysDistinct(v.entries) && EntriesOk(v.entries)
    ensures v.Map? ==> Encode(v) == Head(5, |v.entries|) + EncodeEntries(v.entries)
  {
  }

  lemma {:induction false} EncodingReads(buf: Bytes, i: nat, v: Value)
    requires Supported(v) && OnAt(buf, i, Encode(v))
    ensures Decode(buf, At(i)) == Ok((v, At(i + |Encode(v)|)))
    decreases v, 0
  {
    hide *;
    EncodeCases(v);
    match v
    case Num(n) =>
      var major, arg := if n >= 0 then 0 else 1, if n >= 0 then n else -1 - n;
      HeadReads(buf, i, major, arg);
      DecodeAfterHead(buf, i, major, arg, i + |Head(major, arg)|);
    case ByteString(b) =>
      OnAtSplit(buf, i, Head(2, |b|), b);
      HeadReads(buf, i, 2, |b|);
      SliceAt(buf, i + |Head(2, |b|)|, b);
      DecodeAfterHead(buf, i, 2, |b|, i + |Head(2, |b|)|);
    case TextString(t) =>
      OnAtSplit(buf, i, Head(3, |t|), t);
      HeadReads(buf, i, 3, |t|);
      SliceAt(buf, i + |Head(3, |t|)|, t);
      DecodeAfterHead(buf, i, 3, |t|, i + |Head(3, |t|)|);
    case Array(items) =>
      OnAtSplit(buf, i, Head(4, |items|), EncodeItems(items));
      HeadReads(buf, i, 4, |items|);
      DecodeAfterHead(buf, i, 4, |items|, i + |Head(4, |items|)|);
      ItemsRead(buf, i + |Head(4, |items|)|, items, []);
      assert [] + items == items;
    case Map(entries) =>
      OnAtSplit(buf, i, Head(5, |entries|), EncodeEntries(entries));
      HeadReads(buf, i, 5, |entries|);
      DecodeAfterHead(buf, i, 5, |entries|, i + |Head(5, |entries|)|);
      assert [] + entries == entries;
      EntriesMean(entries);
      EntriesRead(buf, i + |Head(5, |entries|)|, entries, []);
    case Bool(_) => SimpleReads(buf, i, v);
      SimpleLength(v);
    case Null => SimpleReads(buf, i, v);
      SimpleLength(v);
  }

  lemma SimpleLength(v: Value)
    requires v.Bool? || v.Null?
    ensures Supported(v) && |Encode(v)| == 1
  {
  }

  lemma ItemsUnfold(items: seq<Value>)
    requires forall x <- items :: Supported(x)
    ensures |items| == 0 ==> EncodeItems(items) == []
    ensures |items| > 0 ==> Supported(items[0]) && (forall x <- items[1..] :: Supported(x))
    ensures |items| > 0 ==> EncodeItems(items) == Encode(items[0]) + EncodeItems(items[1..])
  {
  }

  lemma ItemsStep(buf: Bytes, i: nat, count: nat, done: seq<Value>, x: Value, next: nat)
    requires count > 0 && Decode(buf, At(i)) == Ok((x, At(next)))
    ensures DecodeItems(buf, At(i), count, done) == DecodeItems(buf, At(next), count - 1, done + [x])
  {
    hide Decode;
  }

  lemma ItemsEnd(buf: Bytes, i: nat, done: seq<Value>)
    ensures DecodeItems(buf, At(i), 0, done) == Ok((Array(done), At(i)))
  {
  }

  lemma {:induction false} ItemsRead(buf: Bytes, i: nat, items: seq<Value>, done: seq<Value>)
    requires (forall x <- items :: Supported(x)) && OnAt(buf, i, EncodeItems(items))
    ensures DecodeItems(buf, At(i), |items|, done) == Ok((Array(done + items), At(i + |EncodeItems(items)|)))
    decreases items, 1
  {
    hide *;
    ItemsUnfold(items);
    if |items| == 0 {
      ItemsEnd(buf, i, done);
      assert done + items == done;
    } else {
      OnAtSplit(buf, i, Encode(items[0]), EncodeItems(items[1..]));
      EncodingReads(buf, i, items[0]);
      var next := i + |Encode(items[0])|;
      ItemsStep(buf, i, |items|, done, items[0], next);
      ItemsRead(buf, next, items[1..], done + [items[0]]);
      assert done + [items[0]] + items[1..] == done + items;
    }
  }

  lemma EntriesUnfold(entries: Entries)
    requires EntriesOk(entries)
    ensures |entries| == 0 ==> EncodeEntries(entries) == []
    ensures |entries| > 0 ==> Supported(entries[0].key) && Supported(entries[0].value) && EntriesOk(entries[1..])
    ensures |entries| > 0 ==>
      EncodeEntries(entries) == Encode(entries[0].key) + (Encode(entries[0].value) + EncodeEntries(entries[1..]))
  {
  }

  lemma EntriesMean(entries: Entries)
    requires EntriesOk(entries)
    ensures forall e <- entries :: (e.key.Num? || e.key.TextString?) && Supported(e.key) && Supported(e.value)
  {
  }

  lemma EntriesStep(buf: Bytes, i: nat, count: nat, done: Entries, e: Entry, middle: nat, next: nat)
    requires count > 0 && Decode(buf, At(i)) == Ok((e.key, At(middle))) && Decode(buf, At(middle)) == Ok((e.value, At(next)))
    ensures DecodeEntries(buf, At(i), count, done) == DecodeEntries(buf, At(next), count - 1, SetEntry(done, e.key, e.value))
  {
    hide Decode, SetEntry;
  }

  lemma EntriesEnd(buf: Bytes, i: nat, done: Entries)
    ensures DecodeEntries(buf, At(i), 0, done) == Ok((Map(done), At(i)))
  {
  }

  lemma KeyIsNew(done: Entries, entries: Entries)
    requires KeysDistinct(done + entries) && |entries| > 0
    ensures forall k :: 0 <= k < |done| ==> done[k].key != entries[0].key
    ensures done + [entries[0]] + entries[1..] == done + entries
  {
    var all := done + entries;
    forall k | 0 <= k < |done| ensures done[k].key != entries[0].key {
      assert all[k] == done[k] && all[|done|] == entries[0];
    }
  }

  lemma {:induction false} EntriesRead(buf: Bytes, i: nat, entries: Entries, done: Entries)
    requires EntriesOk(entries) && KeysDistinct(done + entries)
    requires forall e <- entries :: (e.key.Num? || e.key.TextString?) && Supported(e.key) && Supported(e.value)
    requires OnAt(buf, i, EncodeEntries(entries))
    ensures DecodeEntries(buf, At(i), |entries|, done) == Ok((Map(done + entries), At(i + |EncodeEntries(entries)|)))
    decreases entries, 1
  {
    hide *;
    EntriesUnfold(entries);
    if |entries| == 0 {
      EntriesEnd(buf, i, done);
      assert done + entries == done;
    } else {
      var e := entries[0];
      assert e.key < e && e.value < e;
      EntriesMean(entries[1..]);
      OnAtSplit(buf, i, Encode(e.key), Encode(e.value) + EncodeEntries(entries[1..]));
      var middle := i + |Encode(e.key)|;
      OnAtSplit(buf, middle, Encode(e.value), EncodeEntries(entries[1..]));
      EncodingReads(buf, i, e.key);
      EncodingReads(buf, middle, e.value);
      var next := middle + |Encode(e.value)|;
      EntriesStep(buf, i, |entries|, done, e, middle, next);
      KeyIsNew(done, entries);
      SetNewEntry(done, e.key, e.value);
      assert Entry(e.key, e.value) == e;
      EntriesRead(buf, next, entries[1..], done + [e]);
    }
  }

  /** Decoding an encoding, at any place and whatever follows, gives the value and the offset just after it. */
  lemma DecodeUndoesEncode(before: Bytes, v: Value, after: Bytes)
    requires Supported(v)
    ensures Decode(before + Encode(v) + after, At(|before|)) == Ok((v, At(|before + Encode(v)|)))
  {
    var buf := before + Encode(v) + after;
    hide Encode, Supported, Decode;
    assert OnAt(buf, |before|, Encode(v));
    EncodingReads(buf, |before|, v);
  }

  /** No encoding is a prefix of another: what follows a value cannot change how it reads. */
  lemma EncodingsArePrefixFree(v: Value, w: Value, after: Bytes, after': Bytes)
    requires Supported(v) && Supported(w) && Encode(v) + after == Encode(w) + after'
    ensures v == w && after == after'
  {
    hide Encode, Supported, Decode;
    DecodeUndoesEncode([], v, after);
    DecodeUndoesEncode([], w, after');
    assert [] + Encode(v) + after == Encode(v) + after;
    assert [] + Encode(w) + after' == Encode(w) + after';
    assert v == w;
    assert (Encode(v) + after)[|Encode(v)|..] == after;
    assert (Encode(w) + after')[|Encode(w)|..] == after';
  }

  // ------------------------------------------------------------- locality

  /** The two buffers hold the same bytes from i up to end, and both reach that far. */
  ghost predicate Agree(a: Bytes, b: Bytes, i: nat, end: nat) {
    end <= |a| && end <= |b| && forall k :: i <= k < end ==> a[k] == b[k]
  }

  /** A result that ends inside the buffer, and so does all it was read from. */
  predicate Inside(buf: Bytes, r: Decoded) { r.Ok? && !Past(buf, r.value.1) }

  lemma ReadLengthLocal(a: Bytes, b: Bytes, offset: nat, ai: nat, end: nat)
    requires ReadLength(a, offset, ai).Ok? && ReadLength(a, offset, ai).value.1 <= end && Agree(a, b, offset, end)
    ensures ReadLength(b, offset, ai) == ReadLength(a, offset, ai) && ReadLength(a, offset, ai).value.0.Some?
  {
  }

  lemma UndefinedIsPast(buf: Bytes, offset: nat, ai: nat)
    ensures var r := ReadLength(buf, offset, ai); r.Ok? && r.value.0.None? ==> |buf| < r.value.1
  {
  }

  /** How a decoding of one item that ends inside the buffer goes on after its initial byte. */
  lemma DecodeCases(buf: Bytes, i: nat)
    requires Inside(buf, Decode(buf, At(i)))
    ensures i < |buf| && i < Decode(buf, At(i)).value.1.n
    ensures var major, ai, end := buf[i] / 32, buf[i] % 32, Decode(buf, At(i)).value.1.n;
      && major != 6
      && (major == 7 ==> end == i + 1)
      && (major < 6 ==> ReadLength(buf, i + 1, ai).Ok? && ReadLength(buf, i + 1, ai).value.0.Some?)
      && (major < 6 ==> ReadLength(buf, i + 1, ai).value.1 <= end)
      && (major < 2 ==> ReadLength(buf, i + 1, ai).value.1 == end)
      && (major == 2 || major == 3 ==> ReadLength(buf, i + 1, ai).value.1 + ReadLength(buf, i + 1, ai).value.0.value == end)
  {
    hide ReadLength, DecodeItems, DecodeEntries;
    if i < |buf| && buf[i] / 32 < 6 { UndefinedIsPast(buf, i + 1, buf[i] % 32); }
  }

  /** Major type 7 is decided by the initial byte alone. */
  lemma SimpleLocal(a: Bytes, b: Bytes, i: nat)
    requires i < |a| && i < |b| && a[i] == b[i] && a[i] / 32 == 7
    ensures Decode(a, At(i)) == Decode(b, At(i))
  {
  }

  lemma {:induction false} DecodeLocal(a: Bytes, b: Bytes, i: nat)
    requires Inside(a, Decode(a, At(i))) && Agree(a, b, i, Decode(a, At(i)).value.1.n)
    ensures Decode(b, At(i)) == Decode(a, At(i))
    decreases Remaining(a, At(i)), 0, 0
  {
    var end := Decode(a, At(i)).value.1.n;
    DecodeCases(a, i);
    var major, ai := a[i] / 32, a[i] % 32;
    if major == 7 {
      SimpleLocal(a, b, i);
    } else {
      ReadLengthLocal(a, b, i + 1, ai, end);
      var n, start := ReadLength(a, i + 1, ai).value.0.value, ReadLength(a, i + 1, ai).value.1;
      DecodeAfterHead(a, i, major, n, start);
      DecodeAfterHead(b, i, major, n, start);
      hide Decode, DecodeItems, DecodeEntries, ReadLength;
      if major == 2 || major == 3 {
        assert a[start..end] == b[start..end];
      } else if major == 4 {
        ItemsLocal(a, b, start, n, []);
      } else if major == 5 {
        EntriesLocal(a, b, start, n, []);
      }
    }
  }

  lemma ItemsCases(buf: Bytes, i: nat, count: nat, items: seq<Value>)
    requires Inside(buf, DecodeItems(buf, At(i), count, items)) && count > 0
    ensures Inside(buf, Decode(buf, At(i)))
    ensures i < Decode(buf, At(i)).value.1.n <= DecodeItems(buf, At(i), count, items).value.1.n
    ensures var x := Decode(buf, At(i)).value;
      DecodeItems(buf, At(i), count, items) == DecodeItems(buf, x.1, count - 1, items + [x.0])
  {
    hide Decode;
  }

  lemma {:induction false} ItemsLocal(a: Bytes, b: Bytes, i: nat, count: nat, items: seq<Value>)
    requires Inside(a, DecodeItems(a, At(i), count, items))
    requires Agree(a, b, i, DecodeItems(a, At(i), count, items).value.1.n)
    ensures DecodeItems(b, At(i), count, items) == DecodeItems(a, At(i), count, items)
    decreases Remaining(a, At(i)), 1, count
  {
    hide Decode, DecodeItems, DecodeEntries, ReadLength;
    if count == 0 {
      ItemsEnd(a, i, items);
      ItemsEnd(b, i, items);
    } else {
      ItemsCases(a, i, count, items);
      var x := Decode(a, At(i)).value;
      DecodeLocal(a, b, i);
      ItemsStep(b, i, count, items, x.0, x.1.n);
      ItemsLocal(a, b, x.1.n, count - 1, items + [x.0]);
    }
  }

  lemma EntriesCases(buf: Bytes, i: nat, count: nat, entries: Entries)
    requires Inside(buf, DecodeEntries(buf, At(i), count, entries)) && count > 0
    ensures Inside(buf, Decode(buf, At(i))) && Inside(buf, Decode(buf, Decode(buf, At(i)).value.1))
    ensures var k := Decode(buf, At(i)).value;
      var v := Decode(buf, k.1).value;
      && i < k.1.n < v.1.n <= DecodeEntries(buf, At(i), count, entries).value.1.n
      && DecodeEntries(buf, At(i), count, entries) == DecodeEntries(buf, v.1, count - 1, SetEntry(entries, k.0, v.0))
  {
    hide Decode, SetEntry;
  }

  lemma {:induction false} EntriesLocal(a: Bytes, b: Bytes, i: nat, count: nat, entries: Entries)
    requires Inside(a, DecodeEntries(a, At(i), count, entries))
    requires Agree(a, b, i, DecodeEntries(a, At(i), count, entries).value.1.n)
    ensures DecodeEntries(b, At(i), count, entries) == DecodeEntries(a, At(i), count, entries)
    decreases Remaining(a, At(i)), 1, count
  {
    hide Decode, DecodeItems, DecodeEntries, ReadLength, SetEntry;
    if count == 0 {
      EntriesEnd(a, i, entries);
      EntriesEnd(b, i, entries);
    } else {
      EntriesCases(a, i, count, entries);
      var k := Decode(a, At(i)).value;
      var v := Decode(a, k.1).value;
      DecodeLocal(a, b, i);
      DecodeLocal(a, b, k.1.n);
      EntriesStep(b, i, count, entries, Entry(k.0, v.0), k.1.n, v.1.n);
      EntriesLocal(a, b, v.1.n, count - 1, SetEntry(entries, k.0, v.0));
    }
  }

  /**
   * A decoding that ends inside the buffer has read nothing else: whatever
   * stands before the item or after its end, it decodes the same.
   */
  lemma DecodingReadsOnlyItsItem(a: Bytes, b: Bytes, i: nat)
    requires Inside(a, Decode(a, At(i)))
    requires Decode(a, At(i)).value.1.n <= |b|
    requires a[i..Decode(a, At(i)).value.1.n] == b[i..Decode(a, At(i)).value.1.n]
    ensures Decode(b, At(i)) == Decode(a, At(i))
  {
    hide Decode;
    var end := Decode(a, At(i)).value.1.n;
    forall k | i <= k < end ensures a[k] == b[k] { assert a[i..end][k - i] == b[i..end][k - i]; }
    DecodeLocal(a, b, i);
  }

  // ----------------------------------------------------------- truncation

  /** A cut of a head that the decoder does not notice: before it, or before its one argument byte. */
  predicate HeadBoundary(arg: nat, n: nat) { n == 0 || (n == 1 && 24 <= arg < 256) }

  /** The cuts of an encoding after n bytes at which no read of the decoder is refused. */
  predicate Boundary(v: Value, n: nat)
    requires Supported(v)
    decreases v, 0
  {
    match v
    case Num(x) => HeadBoundary(if x >= 0 then x else -1 - x, n)
    case ByteString(b) => HeadBoundary(|b|, n)
    case TextString(t) => HeadBoundary(|t|, n)
    case Array(items) =>
      var head := |Head(4, |items|)|;
      if n < head then HeadBoundary(|items|, n) else ItemsBoundary(items, n - head)
    case Map(entries) =>
      var head := |Head(5, |entries|)|;
      if n < head then HeadBoundary(|entries|, n) else EntriesBoundary(entries, n - head)
    case Bool(_) => n == 0
    case Null => n == 0
  }

  predicate ItemsBoundary(items: seq<Value>, n: nat)
    requires forall x <- items :: Supported(x)
    decreases items, 1
  {
    |items| > 0 &&
    var first := |Encode(items[0])|;
    if n < first then Boundary(items[0], n) else ItemsBoundary(items[1..], n - first)
  }

  predicate EntriesBoundary(entries: Entries, n: nat)
    requires forall e <- entries :: (e.key.Num? || e.key.TextString?) && Supported(e.key) && Supported(e.value)
    decreases entries, 1
  {
    |entries| > 0 &&
    assert entries[0].key < entries[0] && entries[0].value < entries[0];
    var key, both := |Encode(entries[0].key)|, |Encode(entries[0].key)| + |Encode(entries[0].value)|;
    if n < key then Boundary(entries[0].key, n)
    else if n < both then Boundary(entries[0].value, n - key)
    else EntriesBoundary(entries[1..], n - both)
  }

  /** The buffer ends after the first n bytes of part, which start at i. */
  ghost predicate CutAt(buf: Bytes, i: nat, part: Bytes, n: nat) {
    n < |part| && |buf| == i + n && forall k :: i <= k < i + n ==> buf[k] == part[k - i]
  }

  /** Decoding succeeds exactly when ok says so, and then ends past the buffer. */
  predicate CutResult(buf: Bytes, r: Decoded, ok: bool) { (r.Ok? <==> ok) && (r.Ok? ==> r.value.1.Nowhere? || r.value.1.n > |buf|) }

  lemma CutSplit(buf: Bytes, i: nat, a: Bytes, b: Bytes, n: nat)
    requires CutAt(buf, i, a + b, n)
    ensures n < |a| ==> CutAt(buf, i, a, n)
    ensures n >= |a| ==> OnAt(buf, i, a) && CutAt(buf, i + |a|, b, n - |a|)
  {
    forall k | i <= k < i + n ensures buf[k] == if k - i < |a| then a[k - i] else b[k - i - |a|] {
      assert buf[k] == (a + b)[k - i];
    }
  }

  /** Inside a head only a missing single argument byte goes unnoticed. */
  lemma HeadCut(buf: Bytes, i: nat, major: nat, arg: nat, n: nat)
    requires major < 6 && arg < LIMIT && CutAt(buf, i, Head(major, arg), n)
    ensures CutResult(buf, Decode(buf, At(i)), HeadBoundary(arg, n))
  {
    var h := Head(major, arg);
    if n > 0 {
      assert buf[i] == h[0];
      assert buf[i] / 32 == major;
    }
  }

  /** A whole head whose string is cut is refused. */
  lemma StringCut(buf: Bytes, i: nat, major: nat, arg: nat, start: nat)
    requires i < |buf| && (major == 2 || major == 3) && buf[i] / 32 == major
    requires ReadLength(buf, i + 1, buf[i] % 32) == Ok((Some(arg), start)) && start + arg > |buf|
    ensures Decode(buf, At(i)) == Err(InvalidCbor)
  {
  }

  lemma BoundaryCases(v: Value, n: nat)
    requires Supported(v)
    ensures v.Num? ==> Boundary(v, n) == HeadBoundary(if v.n >= 0 then v.n else -1 - v.n, n)
    ensures v.ByteString? ==> Boundary(v, n) == HeadBoundary(|v.bytes|, n)
    ensures v.TextString? ==> Boundary(v, n) == HeadBoundary(|v.utf8|, n)
    ensures v.Array? ==> |v.items| < LIMIT && forall x <- v.items :: Supported(x)
    ensures v.Array? ==> var head := |Head(4, |v.items|)|;
      Boundary(v, n) == if n < head then HeadBoundary(|v.items|, n) else ItemsBoundary(v.items, n - head)
    ensures v.Map? ==> |v.entries| < LIMIT
    ensures v.Map? ==> forall e <- v.entries :: (e.key.Num? || e.key.TextString?) && Supported(e.key) && Supported(e.value)
    ensures v.Map? ==> var head := |Head(5, |v.entries|)|;
      Boundary(v, n) == if n < head then HeadBoundary(|v.entries|, n) else EntriesBoundary(v.entries, n - head)
    ensures v.Bool? || v.Null? ==> Boundary(v, n) == (n == 0)
  {
    hide ItemsBoundary, EntriesBoundary, HeadBoundary;
  }

  lemma HeadNotCut(major: nat, arg: nat, n: nat)
    requires major < 8 && arg < LIMIT && n >= |Head(major, arg)|
    ensures !HeadBoundary(arg, n)
  {
  }

  lemma NothingLeft(buf: Bytes, i: nat)
    requires |buf| <= i
    ensures Decode(buf, At(i)) == Ok((Num(0), At(i + 1)))
  {
  }

  lemma {:induction false} CutReads(buf: Bytes, i: nat, v: Value, n: nat)
    requires Supported(v) && CutAt(buf, i, Encode(v), n)
    ensures CutResult(buf, Decode(buf, At(i)), Boundary(v, n))
    decreases v, 0
  {
    hide Encode, Supported, Decode, Boundary, Head, ReadLength, CutAt, OnAt, HeadBoundary, EncodeItems, EncodeEntries,
         ItemsBoundary, EntriesBoundary, DecodeItems, DecodeEntries, EntriesOk, KeysDistinct;
    EncodeCases(v);
    BoundaryCases(v, n);
    match v
    case Num(x) =>
      HeadCut(buf, i, if x >= 0 then 0 else 1, if x >= 0 then x else -1 - x, n);
    case ByteString(b) =>
      StringReads(buf, i, 2, b, n);
    case TextString(t) =>
      StringReads(buf, i, 3, t, n);
    case Array(items) =>
      var head := Head(4, |items|);
      CutSplit(buf, i, head, EncodeItems(items), n);
      if n < |head| {
        HeadCut(buf, i, 4, |items|, n);
      } else {
        HeadReads(buf, i, 4, |items|);
        DecodeAfterHead(buf, i, 4, |items|, i + |head|);
        ItemsCut(buf, i + |head|, items, [], n - |head|);
      }
    case Map(entries) =>
      var head := Head(5, |entries|);
      CutSplit(buf, i, head, EncodeEntries(entries), n);
      if n < |head| {
        HeadCut(buf, i, 5, |entries|, n);
      } else {
        HeadReads(buf, i, 5, |entries|);
        DecodeAfterHead(buf, i, 5, |entries|, i + |head|);
        EntriesMean(entries);
        EntriesCut(buf, i + |head|, entries, [], n - |head|);
      }
    case Bool(_) =>
      SimpleCut(buf, i, v, n);
    case Null =>
      SimpleCut(buf, i, v, n);
  }

  lemma SimpleCut(buf: Bytes, i: nat, v: Value, n: nat)
    requires (v.Bool? || v.Null?) && Supported(v) && CutAt(buf, i, Encode(v), n)
    ensures n == 0 && CutResult(buf, Decode(buf, At(i)), true)
  {
    SimpleLength(v);
    NothingLeft(buf, i);
  }

  lemma StringReads(buf: Bytes, i: nat, major: nat, s: Bytes, n: nat)
    requires (major == 2 || major == 3) && |s| < LIMIT && CutAt(buf, i, Head(major, |s|) + s, n)
    ensures CutResult(buf, Decode(buf, At(i)), HeadBoundary(|s|, n))
  {
    hide Decode, Head, ReadLength, CutAt, OnAt, HeadBoundary;
    var head := Head(major, |s|);
    CutSplit(buf, i, head, s, n);
    if n < |head| {
      HeadCut(buf, i, major, |s|, n);
    } else {
      HeadReads(buf, i, major, |s|);
      assert |buf| == i + n && n < |head| + |s| by { CutMeans(buf, i, head + s, n); }
      StringCut(buf, i, major, |s|, i + |head|);
      HeadNotCut(major, |s|, n);
    }
  }

  lemma CutMeans(buf: Bytes, i: nat, part: Bytes, n: nat)
    requires CutAt(buf, i, part, n)
    ensures n < |part| && |buf| == i + n
  {
  }

  /** Past the buffer everything is zero, and stays past it. */
  lemma {:induction false} ZerosFollow(buf: Bytes, at: Place, count: nat, items: seq<Value>)
    requires Past(buf, at)
    ensures var r := DecodeItems(buf, at, count, items); r.Ok? && Past(buf, r.value.1)
    decreases count
  {
    if count > 0 { ZerosFollow(buf, Next(at), count - 1, items + [Num(0)]); }
  }

  lemma {:induction false} ZeroEntriesFollow(buf: Bytes, at: Place, count: nat, entries: Entries)
    requires Past(buf, at)
    ensures var r := DecodeEntries(buf, at, count, entries); r.Ok? && Past(buf, r.value.1)
    decreases count
  {
    hide SetEntry;
    if count > 0 { ZeroEntriesFollow(buf, Next(Next(at)), count - 1, SetEntry(entries, Num(0), Num(0))); }
  }

  /** How the outcome of the first item decides that of a list. */
  lemma ItemsAfter(buf: Bytes, at: Place, count: nat, items: seq<Value>)
    requires count > 0
    ensures Decode(buf, at).Err? ==> DecodeItems(buf, at, count, items).Err?
    ensures Decode(buf, at).Ok? ==>
      var x := Decode(buf, at).value;
      DecodeItems(buf, at, count, items) == DecodeItems(buf, x.1, count - 1, items + [x.0])
  {
    hide Decode;
  }

  lemma ItemsBoundaryUnfold(items: seq<Value>, n: nat)
    requires (forall x <- items :: Supported(x)) && |items| > 0
    ensures Supported(items[0]) && forall x <- items[1..] :: Supported(x)
    ensures var first := |Encode(items[0])|;
      ItemsBoundary(items, n) == if n < first then Boundary(items[0], n) else ItemsBoundary(items[1..], n - first)
  {
    hide Encode, Boundary;
  }

  lemma {:induction false} ItemsCut(buf: Bytes, i: nat, items: seq<Value>, done: seq<Value>, n: nat)
    requires (forall x <- items :: Supported(x)) && CutAt(buf, i, EncodeItems(items), n)
    ensures CutResult(buf, DecodeItems(buf, At(i), |items|, done), ItemsBoundary(items, n))
    decreases items, 1
  {
    hide Encode, Supported, Decode, Boundary, CutAt, OnAt, EncodeItems, ItemsBoundary, DecodeItems;
    ItemsUnfold(items);
    CutMeans(buf, i, EncodeItems(items), n);
    ItemsBoundaryUnfold(items, n);
    var first := Encode(items[0]);
    CutSplit(buf, i, first, EncodeItems(items[1..]), n);
    if n < |first| {
      CutReads(buf, i, items[0], n);
      ItemsAfter(buf, At(i), |items|, done);
      if Decode(buf, At(i)).Ok? {
        var x := Decode(buf, At(i)).value;
        ZerosFollow(buf, x.1, |items| - 1, done + [x.0]);
      }
    } else {
      EncodingReads(buf, i, items[0]);
      ItemsStep(buf, i, |items|, done, items[0], i + |first|);
      ItemsCut(buf, i + |first|, items[1..], done + [items[0]], n - |first|);
    }
  }

  /** How the outcomes of the first key and value decide that of a map. */
  lemma EntriesAfter(buf: Bytes, at: Place, count: nat, entries: Entries)
    requires count > 0
    ensures Decode(buf, at).Err? ==> DecodeEntries(buf, at, count, entries).Err?
    ensures Decode(buf, at).Ok? && Decode(buf, Decode(buf, at).value.1).Err? ==> DecodeEntries(buf, at, count, entries).Err?
    ensures Decode(buf, at).Ok? && Decode(buf, Decode(buf, at).value.1).Ok? ==>
      var k := Decode(buf, at).value;
      var v := Decode(buf, k.1).value;
      DecodeEntries(buf, at, count, entries) == DecodeEntries(buf, v.1, count - 1, SetEntry(entries, k.0, v.0))
  {
    hide Decode, SetEntry;
  }

  lemma PastIsZero(buf: Bytes, at: Place)
    requires Past(buf, at)
    ensures Decode(buf, at) == Ok((Num(0), Next(at))) && Past(buf, Next(at))
  {
  }

  lemma EntriesBoundaryUnfold(entries: Entries, n: nat)
    requires |entries| > 0
    requires forall e <- entries :: (e.key.Num? || e.key.TextString?) && Supported(e.key) && Supported(e.value)
    ensures forall e <- entries[1..] :: (e.key.Num? || e.key.TextString?) && Supported(e.key) && Supported(e.value)
    ensures Supported(entries[0].key) && Supported(entries[0].value)
    ensures var key, both := |Encode(entries[0].key)|, |Encode(entries[0].key)| + |Encode(entries[0].value)|;
      EntriesBoundary(entries, n) ==
        if n < key then Boundary(entries[0].key, n)
        else if n < both then Boundary(entries[0].value, n - key)
        else EntriesBoundary(entries[1..], n - both)
  {
    hide Encode, Boundary, Supported;
  }

  lemma {:induction false} EntriesCut(buf: Bytes, i: nat, entries: Entries, done: Entries, n: nat)
    requires forall e <- entries :: (e.key.Num? || e.key.TextString?) && Supported(e.key) && Supported(e.value)
    requires CutAt(buf, i, EncodeEntries(entries), n)
    ensures CutResult(buf, DecodeEntries(buf, At(i), |entries|, done), EntriesBoundary(entries, n))
    decreases entries, 1
  {
    hide Encode, Supported, Decode, Boundary, CutAt, OnAt, EncodeEntries, EntriesBoundary, DecodeEntries, SetEntry;
    EntriesUnfold(entries);
    CutMeans(buf, i, EncodeEntries(entries), n);
    EntriesBoundaryUnfold(entries, n);
    var e := entries[0];
    assert e.key < e && e.value < e;
    var key, value := Encode(e.key), Encode(e.value);
    EntriesAfter(buf, At(i), |entries|, done);
    CutSplit(buf, i, key, value + EncodeEntries(entries[1..]), n);
    if n < |key| {
      CutReads(buf, i, e.key, n);
      if Decode(buf, At(i)).Ok? {
        var k := Decode(buf, At(i)).value;
        PastIsZero(buf, k.1);
        ZeroEntriesFollow(buf, Next(k.1), |entries| - 1, SetEntry(done, k.0, Num(0)));
      }
    } else {
      var middle := i + |key|;
      EncodingReads(buf, i, e.key);
      CutSplit(buf, middle, value, EncodeEntries(entries[1..]), n - |key|);
      if n < |key| + |value| {
        CutReads(buf, middle, e.value, n - |key|);
        if Decode(buf, At(middle)).Ok? {
          var v := Decode(buf, At(middle)).value;
          ZeroEntriesFollow(buf, v.1, |entries| - 1, SetEntry(done, e.key, v.0));
        }
      } else {
        EncodingReads(buf, middle, e.value);
        EntriesCut(buf, middle + |value|, entries[1..], SetEntry(done, e.key, e.value), n - |key| - |value|);
      }
    }
  }

  /**
   * A truncated encoding decodes, to something else, exactly when the cut falls
   * before an item or before the single argument byte of a head; the returned
   * offset is then no offset in the buffer, which is how a caller can tell.
   */
  lemma TruncationDecodesExactlyWhen(v: Value, n: nat)
    requires Supported(v) && n < |Encode(v)|
    ensures var buf := Encode(v)[..n];
      && (Decode(buf, At(0)).Ok? <==> Boundary(v, n))
      && (Decode(buf, At(0)).Ok? ==> Past(buf, Decode(buf, At(0)).value.1))
  {
    hide Encode, Supported, Decode, Boundary;
    CutReads(Encode(v)[..n], 0, v, n);
  }

  /** An array header with nothing after it decodes to zeros. */
  lemma TruncatedArrayDecodesToZeros()
    ensures Decode([0x82], At(0)) == Ok((Array([Num(0), Num(0)]), At(3)))
  {
    assert DecodeItems([0x82], At(3), 0, [Num(0), Num(0)]) == Ok((Array([Num(0), Num(0)]), At(3)));
    assert [Num(0)] + [Num(0)] == [Num(0), Num(0)];
    assert DecodeItems([0x82], At(2), 1, [Num(0)]) == DecodeItems([0x82], At(3), 0, [Num(0)] + [Num(0)]);
    assert [] + [Num(0)] == [Num(0)];
    assert DecodeItems([0x82], At(1), 2, []) == DecodeItems([0x82], At(2), 1, [] + [Num(0)]);
  }

  /** Heads that end before their argument byte: no value, no number, an empty string that ends nowhere, an empty array. */
  lemma MissingArgumentIsAccepted()
    ensures Decode([0x18], At(0)) == Ok((Undefined, At(2)))
    ensures Decode([0x38], At(0)) == Ok((NaN, At(2)))
    ensures Decode([0x58], At(0)) == Ok((ByteString([]), Nowhere))
    ensures Decode([0x98], At(0)) == Ok((Array([]), At(2)))
  {
    assert 0x38 / 32 == 1 && 0x38 % 32 == 24;
    assert 0x58 / 32 == 2 && 0x58 % 32 == 24;
    assert 0x98 / 32 == 4 && 0x98 % 32 == 24;
  }
}
