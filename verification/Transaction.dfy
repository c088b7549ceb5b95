/** EIP-1559 transaction payloads (Transaction.cpp). */
module Transactions {
  import opened Results
  import opened FixedPoint
  import opened Uint256
  import opened Rlp

  const ADDRESS_SIZE: nat := 20

  type AddressBytes = s: Bytes | |s| == ADDRESS_SIZE witness seq(ADDRESS_SIZE, _ => 0)

  type Word = x: nat | x <= MAX_UINT256

  datatype Eip1559Transaction = Eip1559Transaction(
    chainId: Word,
    nonce: Word,
    maxPriorityFeePerGas: Word,
    maxFeePerGas: Word,
    gasLimit: Word,
    to: Option<AddressBytes>,
    value: Word,
    data: Bytes)

  datatype Signature = Signature(yParity: Word, r: Word, s: Word)

  function AddressString(address: Option<AddressBytes>): Bytes {
    if address.Some? then address.value else []
  }

  /** The nine fields of an unsigned transaction; the access list is always empty. */
  function UnsignedItems(tx: Eip1559Transaction): seq<Item> {
    [Str(Digits(tx.chainId)),
     Str(Digits(tx.nonce)),
     Str(Digits(tx.maxPriorityFeePerGas)),
     Str(Digits(tx.maxFeePerGas)),
     Str(Digits(tx.gasLimit)),
     Str(AddressString(tx.to)),
     Str(Digits(tx.value)),
     Str(tx.data),
     List([])]
  }

  function SignatureItems(signature: Signature): seq<Item> {
    [Str(Digits(signature.yParity)), Str(Digits(signature.r)), Str(Digits(signature.s))]
  }

  /** The type byte 2 followed by the list of fields; none when a length needs more than 64 bits. */
  function TypedPayload(items: seq<Item>): Option<Bytes> {
    var encoded := Encode(List(items));
    if encoded.Some? then Some([2] + encoded.value) else None
  }

  function SigningPayload(tx: Eip1559Transaction): Option<Bytes> {
    TypedPayload(UnsignedItems(tx))
  }

  function SignedPayload(tx: Eip1559Transaction, signature: Signature): Option<Bytes> {
    TypedPayload(UnsignedItems(tx) + SignatureItems(signature))
  }

  // The encoders as the source runs them ---------------------------------------------------------

  /** The encoded items, one by one. */
  ghost predicate EncodesEach(items: seq<Item>, encoded: seq<Bytes>) {
    |encoded| == |items| && forall i :: 0 <= i < |items| ==> Encode(items[i]) == Some(encoded[i])
  }

  lemma {:induction false} ConcatFront(encoded: seq<Bytes>)
    requires encoded != []
    ensures Concat(encoded) == encoded[0] + Concat(encoded[1..])
  {
    var n := |encoded| - 1;
    if n > 0 {
      ConcatFront(encoded[..n]);
      assert encoded[..n][1..] == encoded[1..][..n - 1];
    } else {
      assert Concat(encoded[..0]) == [] && encoded[1..] == [];
    }
  }

  lemma {:induction false} EncodeAllConcatenates(items: seq<Item>, encoded: seq<Bytes>)
    requires EncodesEach(items, encoded)
    ensures EncodeAll(items) == Some(Concat(encoded))
  {
    if items != [] {
      EncodeAllConcatenates(items[1..], encoded[1..]);
      ConcatFront(encoded);
    }
  }

  method ComputeUnsignedItems(tx: Eip1559Transaction) returns (r: seq<Bytes>)
    requires |tx.data| < SIZE_LIMIT
    ensures EncodesEach(UnsignedItems(tx), r)
  {
    hide Digits, EncodeBytes, EncodeList;
    var chainId := ComputeUint256(tx.chainId);
    var nonce := ComputeUint256(tx.nonce);
    var maxPriorityFeePerGas := ComputeUint256(tx.maxPriorityFeePerGas);
    var maxFeePerGas := ComputeUint256(tx.maxFeePerGas);
    var gasLimit := ComputeUint256(tx.gasLimit);
    var to := ComputeBytes(AddressString(tx.to));
    var value := ComputeUint256(tx.value);
    var data := ComputeBytes(tx.data);
    var accessList := ComputeList([]);
    r := [chainId, nonce, maxPriorityFeePerGas, maxFeePerGas, gasLimit, to, value, data, accessList];
  }

  method ComputeTypedPayload(ghost items: seq<Item>, encoded: seq<Bytes>) returns (r: Bytes)
    requires EncodesEach(items, encoded) && |Concat(encoded)| < SIZE_LIMIT
    ensures TypedPayload(items) == Some(r)
  {
    EncodeAllConcatenates(items, encoded);
    r := [2];
    var list := ComputeList(encoded);
    r := r + list;
  }

  method EncodeSigningPayload(tx: Eip1559Transaction) returns (r: Bytes)
    requires SigningPayload(tx).Some?
    ensures SigningPayload(tx) == Some(r)
  {
    hide EncodesEach, UnsignedItems;
    assert UnsignedItems(tx) + [] == UnsignedItems(tx);
    DataFits(tx, []);
    var items := ComputeUnsignedItems(tx);
    EncodeAllConcatenates(UnsignedItems(tx), items);
    r := ComputeTypedPayload(UnsignedItems(tx), items);
  }

  method EncodeSigned(tx: Eip1559Transaction, signature: Signature) returns (r: Bytes)
    requires SignedPayload(tx, signature).Some?
    ensures SignedPayload(tx, signature) == Some(r)
  {
    DataFits(tx, SignatureItems(signature));
    var items := ComputeUnsignedItems(tx);
    var yParity := ComputeUint256(signature.yParity);
    items := items + [yParity];
    var part := ComputeUint256(signature.r);
    items := items + [part];
    part := ComputeUint256(signature.s);
    items := items + [part];
    ghost var fields := UnsignedItems(tx) + SignatureItems(signature);
    SignedFieldsEncode(tx, signature, items);
    EncodeAllConcatenates(fields, items);
    r := ComputeTypedPayload(fields, items);
  }

  lemma SignedFieldsEncode(tx: Eip1559Transaction, signature: Signature, encoded: seq<Bytes>)
    requires |encoded| == 12 && EncodesEach(UnsignedItems(tx), encoded[..9])
    requires |Digits(signature.yParity)| <= SIZE && |Digits(signature.r)| <= SIZE && |Digits(signature.s)| <= SIZE
    requires encoded[9] == EncodeBytes(Digits(signature.yParity))
    requires encoded[10] == EncodeBytes(Digits(signature.r))
    requires encoded[11] == EncodeBytes(Digits(signature.s))
    ensures EncodesEach(UnsignedItems(tx) + SignatureItems(signature), encoded)
  {
  }

  /** A payload exists only if every field could be encoded, the data among them. */
  lemma DataFits(tx: Eip1559Transaction, more: seq<Item>)
    requires TypedPayload(UnsignedItems(tx) + more).Some?
    ensures |tx.data| < SIZE_LIMIT
  {
    var items := UnsignedItems(tx) + more;
    assert items[7] == Str(tx.data);
    PartOfEncodable(items, 7);
  }

  lemma {:induction false} PartOfEncodable(items: seq<Item>, i: nat)
    requires i < |items| && EncodeAll(items).Some?
    ensures Encode(items[i]).Some?
  {
    if i > 0 {
      PartOfEncodable(items[1..], i - 1);
    }
  }

  // Decoding ---------------------------------------------------------------------------------

  /** The fields of a typed payload. */
  function ReadFields(bytes: Bytes): Option<seq<Item>> {
    if bytes == [] || bytes[0] != 2 then None else
    var item := Decode(bytes[1..]);
    if item.None? || item.value.1 != [] || item.value.0.Str? then None else Some(item.value.0.items)
  }

  /** Decoding a payload gives back exactly the fields it was built from. */
  lemma PayloadFields(items: seq<Item>)
    requires TypedPayload(items).Some?
    ensures ReadFields(TypedPayload(items).value) == Some(items)
  {
    hide Encode, Decode;
    var encoded := Encode(List(items)).value;
    DecodesItem(List(items), []);
    assert encoded + [] == encoded && ([2] + encoded)[1..] == encoded;
  }

  /** The field list determines the transaction. */
  lemma FieldsDetermine(a: Eip1559Transaction, b: Eip1559Transaction)
    requires UnsignedItems(a) == UnsignedItems(b)
    ensures a == b
  {
    hide Digits;
    var x, y := UnsignedItems(a), UnsignedItems(b);
    assert x[0] == y[0] && x[1] == y[1] && x[2] == y[2] && x[3] == y[3] && x[4] == y[4] && x[5] == y[5]
           && x[6] == y[6] && x[7] == y[7];
    DigitsDetermine(a.chainId, b.chainId);
    DigitsDetermine(a.nonce, b.nonce);
    DigitsDetermine(a.maxPriorityFeePerGas, b.maxPriorityFeePerGas);
    DigitsDetermine(a.maxFeePerGas, b.maxFeePerGas);
    DigitsDetermine(a.gasLimit, b.gasLimit);
    DigitsDetermine(a.value, b.value);
  }

  lemma DigitsDetermine(x: nat, y: nat)
    requires Digits(x) == Digits(y)
    ensures x == y
  {
    DigitsValue(x);
    DigitsValue(y);
  }

  lemma SigningPayloadInjective(a: Eip1559Transaction, b: Eip1559Transaction)
    requires SigningPayload(a).Some? && SigningPayload(a) == SigningPayload(b)
    ensures a == b
  {
    hide UnsignedItems, TypedPayload, ReadFields;
    PayloadFields(UnsignedItems(a));
    PayloadFields(UnsignedItems(b));
    FieldsDetermine(a, b);
  }

  lemma SignedPayloadInjective(a: Eip1559Transaction, sa: Signature, b: Eip1559Transaction, sb: Signature)
    requires SignedPayload(a, sa).Some? && SignedPayload(a, sa) == SignedPayload(b, sb)
    ensures a == b && sa == sb
  {
    hide TypedPayload, ReadFields, Digits;
    var x, y := UnsignedItems(a) + SignatureItems(sa), UnsignedItems(b) + SignatureItems(sb);
    PayloadFields(x);
    PayloadFields(y);
    assert x[..9] == UnsignedItems(a) && y[..9] == UnsignedItems(b);
    FieldsDetermine(a, b);
    assert x[9] == y[9] && x[10] == y[10] && x[11] == y[11];
    DigitsDetermine(sa.yParity, sb.yParity);
    DigitsDetermine(sa.r, sb.r);
    DigitsDetermine(sa.s, sb.s);
  }

  /** What is signed can never be mistaken for a signed transaction. */
  lemma PayloadsDisjoint(a: Eip1559Transaction, b: Eip1559Transaction, signature: Signature)
    requires SigningPayload(a).Some? && SignedPayload(b, signature).Some?
    ensures SigningPayload(a) != SignedPayload(b, signature)
  {
    hide TypedPayload, ReadFields, Digits;
    PayloadFields(UnsignedItems(a));
    PayloadFields(UnsignedItems(b) + SignatureItems(signature));
    assert |UnsignedItems(a)| == 9 && |UnsignedItems(b) + SignatureItems(signature)| == 12;
  }

  // The order of the fields ----------------------------------------------------------------------

  /** The field is the number, written without leading zeros. */
  ghost predicate IsNumber(item: Item, x: nat) {
    item.Str? && Value(item.bytes) == x && (item.bytes != [] ==> item.bytes[0] != 0)
  }

  /** A signing payload reads back, in the order of EIP-1559, as chain id, nonce, priority fee, fee, gas limit,
      destination, value, data and an empty access list. */
  lemma SigningFieldOrder(tx: Eip1559Transaction)
    requires SigningPayload(tx).Some?
    ensures var fields := ReadFields(SigningPayload(tx).value);
            fields.Some? && |fields.value| == 9 && IsFieldOrder(fields.value, tx)
  {
    hide TypedPayload, ReadFields;
    PayloadFields(UnsignedItems(tx));
    FieldsInOrder(tx);
  }

  ghost predicate IsFieldOrder(fields: seq<Item>, tx: Eip1559Transaction) {
    && |fields| >= 9
    && IsNumber(fields[0], tx.chainId) && IsNumber(fields[1], tx.nonce)
    && IsNumber(fields[2], tx.maxPriorityFeePerGas) && IsNumber(fields[3], tx.maxFeePerGas)
    && IsNumber(fields[4], tx.gasLimit)
    && fields[5] == Str(if tx.to.Some? then tx.to.value else [])
    && IsNumber(fields[6], tx.value) && fields[7] == Str(tx.data) && fields[8] == List([])
  }

  lemma FieldsInOrder(tx: Eip1559Transaction)
    ensures IsFieldOrder(UnsignedItems(tx), tx)
  {
    hide Digits;
    DigitsValue(tx.chainId);
    DigitsValue(tx.nonce);
    DigitsValue(tx.maxPriorityFeePerGas);
    DigitsValue(tx.maxFeePerGas);
    DigitsValue(tx.gasLimit);
    DigitsValue(tx.value);
  }

  /** A signed payload reads back as those nine fields, then parity, r and s. */
  lemma SignedFieldOrder(tx: Eip1559Transaction, signature: Signature)
    requires SignedPayload(tx, signature).Some?
    ensures var fields := ReadFields(SignedPayload(tx, signature).value);
            && fields.Some? && |fields.value| == 12 && IsFieldOrder(fields.value, tx)
            && IsNumber(fields.value[9], signature.yParity) && IsNumber(fields.value[10], signature.r)
            && IsNumber(fields.value[11], signature.s)
  {
    hide TypedPayload, ReadFields, Digits;
    var items := UnsignedItems(tx) + SignatureItems(signature);
    PayloadFields(items);
    FieldsInOrder(tx);
    DigitsValue(signature.yParity);
    DigitsValue(signature.r);
    DigitsValue(signature.s);
  }
}
