/** Recursive-length-prefix encoding (Rlp.cpp; Appendix B of the Ethereum Yellow Paper) and a decoder that
    recovers every encoded string, integer and list. */
module Rlp {
  import opened Results
  import opened FixedPoint
  import opened Uint256

  type Bytes = seq<byte>

  /** `size_t` is 64 bits wide. */
  const SIZE_LIMIT: nat := MAX_UINT64 + 1

  /** Big-endian digits without leading zeros; none for zero. */
  function Digits(n: nat): (r: Bytes) {
    if n == 0 then [] else Digits(n / 256) + [n % 256]
  }

  function PayloadHeader(length: nat, shortOffset: byte, longOffset: byte): Bytes
    requires length < SIZE_LIMIT && shortOffset <= 0xc0 && longOffset <= 0xf7
  {
    if length <= 55 then [(shortOffset + length) as byte] else
    DigitsOfLength(length);
    [(longOffset + |Digits(length)|) as byte] + Digits(length)
  }

  function EncodeBytes(value: Bytes): Bytes
    requires |value| < SIZE_LIMIT
  {
    if |value| == 1 && value[0] < 0x80 then value else PayloadHeader(|value|, 0x80, 0xb7) + value
  }

  function EncodeList(payload: Bytes): Bytes
    requires |payload| < SIZE_LIMIT
  {
    PayloadHeader(|payload|, 0xc0, 0xf7) + payload
  }

  function Concat(items: seq<Bytes>): Bytes {
    if items == [] then [] else Concat(items[..|items| - 1]) + items[|items| - 1]
  }

  // Digits -----------------------------------------------------------------------------------

  lemma {:induction false} DigitsValue(n: nat)
    ensures Value(Digits(n)) == n
    ensures Digits(n) != [] ==> Digits(n)[0] != 0
  {
    if n > 0 {
      DigitsValue(n / 256);
      var d := Digits(n / 256);
      assert Digits(n)[..|Digits(n)| - 1] == d;
    }
  }

  lemma DigitsOfZero()
    ensures Digits(0) == []
  {
  }

  lemma {:induction false} DigitsBound(n: nat, k: nat)
    requires n < Pow256(k)
    ensures |Digits(n)| <= k
  {
    if n > 0 {
      assert Pow256(k) == 256 * Pow256(k - 1);
      ShiftByte(n, 0, Pow256(k - 1));
      DigitsBound(n / 256, k - 1);
    }
  }

  lemma DigitsOfLength(length: nat)
    requires length < SIZE_LIMIT
    ensures |Digits(length)| <= 8
    ensures length > 0 ==> |Digits(length)| >= 1
  {
    assert Pow256(4) == 0x1_0000_0000;
    assert Pow256(8) == 256 * 256 * 256 * 256 * Pow256(4);
    DigitsBound(length, 8);
  }

  /** The digits are the only byte string of that value without a leading zero. */
  lemma {:induction false} DigitsUnique(bytes: Bytes)
    requires bytes == [] || bytes[0] != 0
    ensures Digits(Value(bytes)) == bytes
  {
    if bytes != [] {
      var n := |bytes| - 1;
      var front := bytes[..n];
      assert Value(bytes) == Value(front) * 256 + bytes[n];
      if n == 0 {
        assert Digits(Value(bytes) / 256) == [];
      } else {
        DigitsUnique(front);
        assert front[0] == bytes[0];
        NonzeroValue(front);
      }
      assert bytes == front + [bytes[n]];
      assert Value(bytes) / 256 == Value(front) && Value(bytes) % 256 == bytes[n];
    }
  }

  lemma {:induction false} NonzeroValue(bytes: Bytes)
    requires bytes != [] && bytes[0] != 0
    ensures Value(bytes) > 0
  {
    if |bytes| > 1 {
      assert bytes[..|bytes| - 1][0] == bytes[0];
      NonzeroValue(bytes[..|bytes| - 1]);
    }
  }

  // The encoder as the source runs it -----------------------------------------------------------

  /** Collects the low bytes, then reverses them. */
  method ComputeLengthBytes(length: nat) returns (r: Bytes)
    requires length < SIZE_LIMIT
    ensures r == Digits(length)
  {
    var result: Bytes := [];
    var remaining: nat := length;
    while remaining != 0
      invariant Digits(length) == Digits(remaining) + Backwards(result)
      decreases remaining
    {
      ghost var before := result;
      var low: byte := remaining % 256;
      result := result + [low];
      assert Backwards(result) == [low] + Backwards(before);
      assert Digits(remaining) + Backwards(before) == Digits(remaining / 256) + ([low] + Backwards(before));
      remaining := remaining / 256;
    }
    r := Reverse(result);
  }

  /** The bytes from last to first. */
  function Backwards(s: Bytes): (r: Bytes) {
    seq(|s|, i requires 0 <= i < |s| => s[|s| - 1 - i])
  }

  /** Swaps from both ends towards the middle. */
  method Reverse(s: Bytes) returns (r: Bytes)
    ensures r == Backwards(s)
  {
    var n := |s|;
    var a := new byte[n](i requires 0 <= i < n => s[i]);
    var i := 0;
    while i < n / 2
      invariant 0 <= i <= n / 2
      invariant forall k :: i <= k < n - i ==> a[k] == s[k]
      invariant forall k :: 0 <= k < i || n - i <= k < n ==> a[k] == s[n - 1 - k]
    {
      a[i], a[n - 1 - i] := a[n - 1 - i], a[i];
      i := i + 1;
    }
    r := a[..];
  }

  method ComputePayload(payload: Bytes, shortOffset: byte, longOffset: byte) returns (r: Bytes)
    requires |payload| < SIZE_LIMIT && shortOffset <= 0xc0 && longOffset <= 0xf7
    ensures r == PayloadHeader(|payload|, shortOffset, longOffset) + payload
  {
    if |payload| <= 55 {
      r := [(shortOffset + |payload|) as byte];
      r := r + payload;
      return;
    }
    var length := ComputeLengthBytes(|payload|);
    DigitsOfLength(|payload|);
    r := [(longOffset + |length|) as byte];
    r := r + length;
    r := r + payload;
  }

  method ComputeBytes(value: Bytes) returns (r: Bytes)
    requires |value| < SIZE_LIMIT
    ensures r == EncodeBytes(value)
  {
    if |value| == 1 && value[0] < 0x80 {
      return [value[0]];
    }
    r := ComputePayload(value, 0x80, 0xb7);
  }

  /** An integer is the string of its digits: the 32-byte word with its leading zeros skipped. */
  method ComputeUint256(value: nat) returns (r: Bytes)
    requires value <= MAX_UINT256
    ensures |Digits(value)| <= SIZE && r == EncodeBytes(Digits(value))
  {
    hide Digits, EncodeBytes;
    WordSize();
    DigitsBound(value, SIZE);
    if value == 0 {
      assert Digits(0) == [] by { DigitsOfZero(); }
      r := ComputeBytes([]);
      return;
    }
    var bytes := ToBytes(value);
    var stripped := SkipZeros(bytes);
    r := ComputeBytes(stripped);
  }

  /** The bytes from the first nonzero one on. */
  method SkipZeros(bytes: Bytes) returns (r: Bytes)
    ensures r == Digits(Value(bytes))
  {
    hide Digits;
    var first := 0;
    while first < |bytes| && bytes[first] == 0
      invariant first <= |bytes|
      invariant Value(bytes[first..]) == Value(bytes)
    {
      assert bytes[first..] == [bytes[first]] + bytes[first + 1..];
      LeadingZero(bytes[first + 1..]);
      first := first + 1;
    }
    DigitsUnique(bytes[first..]);
    r := bytes[first..];
  }

  lemma LeadingZero(bytes: Bytes)
    ensures Value([0] + bytes) == Value(bytes)
  {
    ValueConcat([0], bytes);
    assert Value([0]) == 0;
  }

  method ComputeList(encodedItems: seq<Bytes>) returns (r: Bytes)
    requires |Concat(encodedItems)| < SIZE_LIMIT
    ensures r == EncodeList(Concat(encodedItems))
  {
    var payload: Bytes := [];
    for i := 0 to |encodedItems|
      invariant payload == Concat(encodedItems[..i])
    {
      assert encodedItems[..i + 1][..i] == encodedItems[..i];
      payload := payload + encodedItems[i];
    }
    assert encodedItems[..|encodedItems|] == encodedItems;
    r := ComputePayload(payload, 0xc0, 0xf7);
  }

  // Structure --------------------------------------------------------------------------------

  /** What RLP encodes: byte strings and lists of items. */
  datatype Item = Str(bytes: Bytes) | List(items: seq<Item>)

  /** The encoding of an item, and of the items of a list in order; none when a length needs more than 64 bits. */
  function Encode(item: Item): Option<Bytes>
    decreases item, 0
  {
    match item
    case Str(bytes) => if |bytes| < SIZE_LIMIT then Some(EncodeBytes(bytes)) else None
    case List(items) =>
      var payload := EncodeAll(items);
      if payload.Some? && |payload.value| < SIZE_LIMIT then Some(EncodeList(payload.value)) else None
  }

  function EncodeAll(items: seq<Item>): Option<Bytes>
    decreases items, 1
  {
    if items == [] then Some([]) else
    var first := Encode(items[0]);
    var rest := EncodeAll(items[1..]);
    if first.Some? && rest.Some? then Some(first.value + rest.value) else None
  }

  // Decoding ---------------------------------------------------------------------------------

  /** The kind of the next item, and where its payload begins and ends. */
  datatype Header = Header(list: bool, start: nat, end: nat)

  function LongHeader(bytes: Bytes, list: bool, width: nat): Option<Header>
    requires width > 0
  {
    if |bytes| < 1 + width then None else
    var end := 1 + width + Value(bytes[1..1 + width]);
    if end <= |bytes| then Some(Header(list, 1 + width, end)) else None
  }

  function ShortHeader(bytes: Bytes, list: bool, length: nat): Option<Header> {
    if 1 + length <= |bytes| then Some(Header(list, 1, 1 + length)) else None
  }

  function ReadHeader(bytes: Bytes): (r: Option<Header>)
    ensures r.Some? ==> r.value.start <= r.value.end <= |bytes| && 0 < r.value.end
    ensures r.Some? && r.value.list ==> 0 < r.value.start
  {
    if bytes == [] then None else
    var b := bytes[0];
    if b < 0x80 then Some(Header(false, 0, 1))
    else if b <= 0xb7 then ShortHeader(bytes, false, b - 0x80)
    else if b <= 0xbf then LongHeader(bytes, false, b - 0xb7)
    else if b <= 0xf7 then ShortHeader(bytes, true, b - 0xc0)
    else LongHeader(bytes, true, b - 0xf7)
  }

  /** Reads one item and returns it with the bytes after it. */
  function Decode(bytes: Bytes): Option<(Item, Bytes)>
    decreases |bytes|, 0
  {
    var header := ReadHeader(bytes);
    if header.None? then None else
    var h := header.value;
    if !h.list then Some((Str(bytes[h.start..h.end]), bytes[h.end..])) else
    var items := DecodeAll(bytes[h.start..h.end]);
    if items.None? then None else Some((List(items.value), bytes[h.end..]))
  }

  function DecodeAll(bytes: Bytes): Option<seq<Item>>
    decreases |bytes|, 1
  {
    if bytes == [] then Some([]) else
    var next := Decode(bytes);
    if next.None? || |next.value.1| >= |bytes| then None else
    var rest := DecodeAll(next.value.1);
    if rest.None? then None else Some([next.value.0] + rest.value)
  }

  // Unique decodability ------------------------------------------------------------------------

  lemma HeaderOfPayload(payload: Bytes, rest: Bytes, list: bool)
    requires |payload| < SIZE_LIMIT
    ensures var header := if list then PayloadHeader(|payload|, 0xc0, 0xf7) else PayloadHeader(|payload|, 0x80, 0xb7);
            var encoded := header + payload + rest;
            var h := ReadHeader(encoded);
            && h.Some? && h.value.list == list && h.value.start > 0
            && encoded[h.value.start..h.value.end] == payload && encoded[h.value.end..] == rest
  {
    var short, long := if list then 0xc0 else 0x80, if list then 0xf7 else 0xb7;
    var header := PayloadHeader(|payload|, short, long);
    var encoded := header + payload + rest;
    var n := |header|;
    assert encoded[0] == header[0];
    assert encoded[n..n + |payload|] == payload && encoded[n + |payload|..] == rest;
    if |payload| > 55 {
      DigitsOfLength(|payload|);
      DigitsValue(|payload|);
      assert encoded[1..n] == Digits(|payload|);
    }
  }

  lemma StringDecodes(value: Bytes, rest: Bytes)
    requires |value| < SIZE_LIMIT
    ensures Decode(EncodeBytes(value) + rest) == Some((Str(value), rest))
  {
    if |value| == 1 && value[0] < 0x80 {
      var encoded := value + rest;
      assert encoded[0..1] == value && encoded[1..] == rest;
    } else {
      hide PayloadHeader, ReadHeader;
      HeaderOfPayload(value, rest, false);
    }
  }

  /** An encoded integer decodes to the string of its digits, whose value it is. */
  lemma IntegerDecodes(value: nat, rest: Bytes)
    requires value <= MAX_UINT256
    ensures |Digits(value)| <= SIZE
    ensures Decode(EncodeBytes(Digits(value)) + rest) == Some((Str(Digits(value)), rest))
    ensures Value(Digits(value)) == value
  {
    WordSize();
    DigitsBound(value, SIZE);
    StringDecodes(Digits(value), rest);
    DigitsValue(value);
  }

  lemma {:induction false} EncodingNonempty(item: Item)
    requires Encode(item).Some?
    ensures Encode(item).value != []
  {
    hide EncodeAll;
    match item
    case Str(bytes) =>
    case List(items) =>
  }

  /** The decoder inverts the encoder on every item, whatever bytes follow. */
  lemma {:induction false} DecodesItem(item: Item, rest: Bytes)
    requires Encode(item).Some?
    ensures Decode(Encode(item).value + rest) == Some((item, rest))
    decreases item, 0
  {
    match item {
      case Str(bytes) => StringDecodes(bytes, rest);
      case List(items) =>
        var payload := EncodeAll(items).value;
        DecodesItems(items);
        hide PayloadHeader, ReadHeader, DecodeAll, EncodeAll;
        HeaderOfPayload(payload, rest, true);
    }
  }

  lemma {:induction false} DecodesItems(items: seq<Item>)
    requires EncodeAll(items).Some?
    ensures DecodeAll(EncodeAll(items).value) == Some(items)
    decreases items, 1
  {
    if items != [] {
      var first, rest := Encode(items[0]).value, EncodeAll(items[1..]).value;
      DecodesItem(items[0], rest);
      DecodesItems(items[1..]);
      EncodingNonempty(items[0]);
      var bytes := EncodeAll(items).value;
      assert bytes == first + rest;
      assert items == [items[0]] + items[1..];
    }
  }

  /** Hence no two items share an encoding, and no encoding is a proper prefix of another. */
  lemma EncodingIsPrefixFree(a: Item, b: Item, rest: Bytes)
    requires Encode(a).Some? && Encode(b).Some? && Encode(a).value + rest == Encode(b).value
    ensures a == b && rest == []
  {
    hide Encode, Decode;
    DecodesItem(a, rest);
    DecodesItem(b, []);
    assert Encode(b).value + [] == Encode(b).value;
  }
}
