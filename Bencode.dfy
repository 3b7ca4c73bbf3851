/** The fragment of the bencode encoding (BitTorrent BEP 3) that a signable
    payload uses: decimal numerals, byte-string tokens `<len>:<bytes>`,
    integer tokens `i<decimal>e`, and flat dictionaries `d <key><item>... e`
    whose items are integers or byte strings.  The encoder is the reference
    that the payload is compared with; the decoder reads such a dictionary
    back. */
module Bencode {
  import opened Wrappers

  type Byte = b: int | 0 <= b < 256
  type Bytes = seq<Byte>

  const Zero: Byte := 48       // '0'
  const Colon: Byte := 58      // ':'
  const Minus: Byte := 45      // '-'
  const IntStart: Byte := 105  // 'i'
  const DictStart: Byte := 100 // 'd'
  const End: Byte := 101       // 'e'

  predicate IsDigit(b: Byte) {
    Zero <= b < Zero + 10
  }

  predicate AllDigits(s: Bytes) {
    forall i :: 0 <= i < |s| ==> IsDigit(s[i])
  }

  /** The shortest decimal numeral of `n`: nonempty, digits only, and
      without a leading zero unless it is "0" itself. */
  function Decimal(n: nat): (r: Bytes)
    ensures |r| > 0 && AllDigits(r)
    ensures r[0] == Zero ==> n == 0
    ensures n < 10 <==> |r| == 1
  {
    if n < 10 then [Zero + n] else Decimal(n / 10) + [Zero + n % 10]
  }

  /** The number a numeral denotes, most significant digit first. */
  function DigitsValue(s: Bytes): nat
    requires AllDigits(s)
  {
    if |s| == 0 then 0 else 10 * DigitsValue(s[..|s| - 1]) + (s[|s| - 1] - Zero)
  }

  lemma {:induction false} DecimalValue(n: nat)
    ensures DigitsValue(Decimal(n)) == n
  {
    if n >= 10 {
      var d := Decimal(n / 10);
      assert (d + [Zero + n % 10])[..|d|] == d;
      DecimalValue(n / 10);
    }
  }

  /** The longest prefix of `s` made of digits. */
  function LeadingDigits(s: Bytes): (r: Bytes)
    ensures |r| <= |s| && r == s[..|r|]
    ensures AllDigits(r)
    ensures |r| == |s| || !IsDigit(s[|r|])
  {
    if |s| > 0 && IsDigit(s[0]) then [s[0]] + LeadingDigits(s[1..]) else []
  }

  /** The digit run of a numeral followed by a non-digit is that numeral. */
  lemma LeadingDigitsOf(d: Bytes, rest: Bytes)
    requires AllDigits(d)
    requires |rest| > 0 && !IsDigit(rest[0])
    ensures LeadingDigits(d + rest) == d
  {
    var s := d + rest;
    assert s[..|d|] == d;
  }

  /** Bencode items that a flat dictionary holds. */
  datatype Item = Integer(n: int) | ByteString(bytes: Bytes)

  datatype Entry = Entry(key: Bytes, item: Item)

  /** `<len>:<bytes>` */
  function EncodeString(b: Bytes): Bytes {
    Decimal(|b|) + [Colon] + b
  }

  /** `i<decimal>e`, with a minus sign for a negative integer */
  function EncodeInteger(n: int): Bytes {
    [IntStart] + (if n < 0 then [Minus] + Decimal(-n) else Decimal(n)) + [End]
  }

  function EncodeItem(v: Item): Bytes {
    match v
    case Integer(n) => EncodeInteger(n)
    case ByteString(b) => EncodeString(b)
  }

  /** The entries in the order given, each as its key's byte string followed
      by its item. */
  function EncodeEntries(es: seq<Entry>): Bytes {
    if es == [] then [] else EncodeString(es[0].key) + EncodeItem(es[0].item) + EncodeEntries(es[1..])
  }

  lemma EncodeEntriesCons(e: Entry, es: seq<Entry>)
    ensures EncodeEntries([e] + es) == EncodeString(e.key) + EncodeItem(e.item) + EncodeEntries(es)
  {
    assert ([e] + es)[1..] == es;
  }

  /** A dictionary; bencode writes its entries in increasing key order, so
      `es` stands for a dictionary exactly when `SortedKeys(es)`. */
  function EncodeDict(es: seq<Entry>): Bytes {
    [DictStart] + EncodeEntries(es) + [End]
  }

  /** Strict lexicographic order of raw byte strings. */
  predicate LexLess(a: Bytes, b: Bytes) {
    |b| > 0 && (|a| == 0 || a[0] < b[0] || (a[0] == b[0] && LexLess(a[1..], b[1..])))
  }

  predicate SortedKeys(es: seq<Entry>) {
    forall i :: 0 < i < |es| ==> LexLess(es[i - 1].key, es[i].key)
  }

  /** The item stored under `key`, as a decoded dictionary's field access. */
  function Lookup(es: seq<Entry>, key: Bytes): (r: Option<Item>)
    ensures r.Some? <==> exists i :: 0 <= i < |es| && es[i].key == key
    ensures r.Some? ==>
      exists i :: 0 <= i < |es| && es[i].key == key && r.value == es[i].item
                  && forall j :: 0 <= j < i ==> es[j].key != key
  {
    if es == [] then None
    else if es[0].key == key then Some(es[0].item)
    else
      var r := Lookup(es[1..], key);
      assert forall i :: 1 <= i < |es| ==> es[i] == es[1..][i - 1];
      r
  }

  // Decoding: each parser returns what it read and the bytes after it.

  /** A byte-string token at the front of `s`. */
  function ParseString(s: Bytes): (r: Option<(Bytes, Bytes)>)
    ensures r.Some? ==> |r.value.1| < |s|
  {
    var d := LeadingDigits(s);
    if |d| == 0 || |d| == |s| || s[|d|] != Colon then None
    else
      var body := s[|d| + 1..];
      var n := DigitsValue(d);
      if n <= |body| then Some((body[..n], body[n..])) else None
  }

  /** An integer token at the front of `s`. */
  function ParseInteger(s: Bytes): (r: Option<(int, Bytes)>)
    ensures r.Some? ==> |r.value.1| < |s|
  {
    if |s| == 0 || s[0] != IntStart then None
    else
      var negative := |s| > 1 && s[1] == Minus;
      var t := if negative then s[2..] else s[1..];
      var d := LeadingDigits(t);
      if |d| == 0 || |d| == |t| || t[|d|] != End then None
      else
        var magnitude: int := DigitsValue(d);
        Some((if negative then -magnitude else magnitude, t[|d| + 1..]))
  }

  /** An integer or byte-string item; lists and nested dictionaries are not
      part of this fragment and are rejected. */
  function ParseItem(s: Bytes): (r: Option<(Item, Bytes)>)
    ensures r.Some? ==> |r.value.1| < |s|
  {
    if |s| > 0 && s[0] == IntStart then
      match ParseInteger(s)
      case None => None
      case Some((n, rest)) => Some((Integer(n), rest))
    else if |s| > 0 && IsDigit(s[0]) then
      match ParseString(s)
      case None => None
      case Some((b, rest)) => Some((ByteString(b), rest))
    else None
  }

  /** Key/item pairs up to and including the dictionary's closing `e`. */
  function ParseEntries(s: Bytes): (r: Option<(seq<Entry>, Bytes)>)
    ensures r.Some? ==> |r.value.1| < |s|
    decreases |s|
  {
    if |s| == 0 then None
    else if s[0] == End then Some(([], s[1..]))
    else
      match ParseString(s)
      case None => None
      case Some((key, rest)) =>
        match ParseItem(rest)
        case None => None
        case Some((item, rest')) =>
          match ParseEntries(rest')
          case None => None
          case Some((tail, rest'')) => Some(([Entry(key, item)] + tail, rest''))
  }

  /** A whole input that is exactly one flat dictionary. */
  function Decode(s: Bytes): Option<seq<Entry>> {
    if |s| == 0 || s[0] != DictStart then None
    else
      match ParseEntries(s[1..])
      case Some((es, rest)) => if rest == [] then Some(es) else None
      case None => None
  }

  lemma ParseStringEncode(b: Bytes, rest: Bytes)
    ensures ParseString(EncodeString(b) + rest) == Some((b, rest))
  {
    var d := Decimal(|b|);
    var s := EncodeString(b) + rest;
    assert s == d + ([Colon] + b + rest);
    LeadingDigitsOf(d, [Colon] + b + rest);
    DecimalValue(|b|);
    assert s[|d| + 1..] == b + rest;
    assert (b + rest)[..|b|] == b;
    assert (b + rest)[|b|..] == rest;
  }

  /** The digits of an integer token and what follows them. */
  lemma IntegerDigitsThenRest(m: nat, rest: Bytes)
    ensures LeadingDigits(Decimal(m) + ([End] + rest)) == Decimal(m)
    ensures DigitsValue(Decimal(m)) == m
    ensures (Decimal(m) + ([End] + rest))[|Decimal(m)| + 1..] == rest
  {
    LeadingDigitsOf(Decimal(m), [End] + rest);
    DecimalValue(m);
  }

  lemma ParseNonNegative(m: nat, rest: Bytes)
    ensures ParseInteger([IntStart] + (Decimal(m) + ([End] + rest))) == Some((m, rest))
  {
    var t := Decimal(m) + ([End] + rest);
    IntegerDigitsThenRest(m, rest);
    assert ([IntStart] + t)[1..] == t;
    assert ([IntStart] + t)[1] == Decimal(m)[0];
  }

  lemma ParseNegative(m: nat, rest: Bytes)
    ensures ParseInteger([IntStart, Minus] + (Decimal(m) + ([End] + rest))) == Some((-(m as int), rest))
  {
    var t := Decimal(m) + ([End] + rest);
    IntegerDigitsThenRest(m, rest);
    assert ([IntStart, Minus] + t)[2..] == t;
  }

  lemma EncodeIntegerThenRest(n: int, rest: Bytes)
    ensures n < 0 ==> EncodeInteger(n) + rest == [IntStart, Minus] + (Decimal(-n) + ([End] + rest))
    ensures n >= 0 ==> EncodeInteger(n) + rest == [IntStart] + (Decimal(n) + ([End] + rest))
  {
  }

  lemma ParseIntegerEncode(n: int, rest: Bytes)
    ensures ParseInteger(EncodeInteger(n) + rest) == Some((n, rest))
  {
    EncodeIntegerThenRest(n, rest);
    if n < 0 {
      ParseNegative(-n, rest);
    } else {
      ParseNonNegative(n, rest);
    }
  }

  lemma ParseItemEncode(v: Item, rest: Bytes)
    ensures ParseItem(EncodeItem(v) + rest) == Some((v, rest))
  {
    match v
    case Integer(n) =>
      ParseIntegerEncode(n, rest);
    case ByteString(b) =>
      ParseStringEncode(b, rest);
      assert (EncodeItem(v) + rest)[0] == Decimal(|b|)[0];
  }

  /** One key/item pair at the front is read and the entries after it
      follow. */
  lemma ParseEntriesStep(k: Bytes, v: Item, after: Bytes, tail: seq<Entry>, rest: Bytes)
    requires ParseEntries(after) == Some((tail, rest))
    ensures ParseEntries(EncodeString(k) + (EncodeItem(v) + after)) == Some(([Entry(k, v)] + tail, rest))
  {
    var s := EncodeString(k) + (EncodeItem(v) + after);
    assert s[0] == Decimal(|k|)[0];
    ParseStringEncode(k, EncodeItem(v) + after);
    ParseItemEncode(v, after);
  }

  lemma EncodeEntriesThenRest(es: seq<Entry>, rest: Bytes)
    requires es != []
    ensures EncodeEntries(es) + [End] + rest
         == EncodeString(es[0].key) + (EncodeItem(es[0].item) + (EncodeEntries(es[1..]) + [End] + rest))
  {
  }

  lemma {:induction false} ParseEntriesEncode(es: seq<Entry>, rest: Bytes)
    ensures ParseEntries(EncodeEntries(es) + [End] + rest) == Some((es, rest))
  {
    if es == [] {
      assert EncodeEntries(es) + [End] + rest == [End] + rest;
    } else {
      ParseEntriesEncode(es[1..], rest);
      ParseEntriesStep(es[0].key, es[0].item, EncodeEntries(es[1..]) + [End] + rest, es[1..], rest);
      EncodeEntriesThenRest(es, rest);
      assert [Entry(es[0].key, es[0].item)] + es[1..] == es;
    }
  }

  /** Decoding an encoded dictionary gives back its entries, in order. */
  lemma DecodeEncode(es: seq<Entry>)
    ensures Decode(EncodeDict(es)) == Some(es)
  {
    var body := EncodeEntries(es) + [End];
    assert body + [] == body;
    ParseEntriesEncode(es, []);
    assert EncodeDict(es) == [DictStart] + body;
    assert ([DictStart] + body)[1..] == body;
  }

  /** Two dictionaries with the same encoding have the same entries. */
  lemma EncodeDictInjective(es: seq<Entry>, fs: seq<Entry>)
    requires EncodeDict(es) == EncodeDict(fs)
    ensures es == fs
  {
    DecodeEncode(es);
    DecodeEncode(fs);
  }
}
