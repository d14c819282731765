/** The SDK's encoding of an account-abstraction transaction can be undone: the
    wire form determines the transaction up to spelling, and the node reads it. */
module AaProofs {
  import opened Bytes
  import opened Hex
  import opened Rlp
  import opened AaTransaction

  // ------------------------------------------- from trees of strings to items

  function TreeItem(t: Option<RlpTree>): Option<Item> {
    if t.Some? then ToItem(t.value) else None
  }

  function TreeItems(ts: seq<Option<RlpTree>>): seq<Option<Item>> {
    seq(|ts|, i requires 0 <= i < |ts| => TreeItem(ts[i]))
  }

  lemma NodeItems(ts: seq<Option<RlpTree>>)
    ensures TreeItem(NodeOf(ts)) == ListItem(AllSome(TreeItems(ts)))
  {
    var all := AllSome(ts);
    if all.Some? {
      var children := all.value;
      var direct := seq(|children|, i requires 0 <= i < |children| => ToItem(children[i]));
      assert direct == TreeItems(ts);
    } else {
      var i :| 0 <= i < |ts| && ts[i].None?;
      assert TreeItems(ts)[i].None?;
    }
  }

  lemma NatLeaf(v: int)
    ensures TreeItem(LeafOf(MinimalBytes(v))) == if v >= 0 then Some(NatItem(v)) else None
  {
    if v > 0 {
      DigitsAreMinimal(v);
      var hex := MinimalBytes(v).value;
      assert hex[2..] == PadEven(Digits(v));
      assert PadEven(hex[2..]) == hex[2..];
    }
  }

  lemma AddressLeaf(a: Option<string>)
    ensures TreeItem(LeafOf(AddressOrEmpty(a)))
         == var m := AddressMeaning(a); if m.Some? then Some(AddressItem(m.value)) else None
    ensures var m := AddressMeaning(a); m.Some? && m.value.Some? ==> |m.value.value| == 20
  {
    if a.Some? {
      ToBytesOfLower(a.value);
    }
  }

  lemma InputLeaf(input: Option<string>)
    ensures ToItem(Leaf(BytesOrEmpty(input)))
         == var m := InputMeaning(input); if m.Some? then Some(Str(m.value)) else None
  {
    if input.Some? {
      ToBytesOfLower(input.value);
    }
  }

  ghost predicate ValidAddress(a: Option<bytes>) { a.Some? ==> |a.value| == 20 }

  lemma CallLeaf(c: AaCall)
    ensures TreeItem(CallTree(c)) == var m := CallMeaning(c); if m.Some? then Some(CallItem(m.value)) else None
    ensures CallMeaning(c).Some? ==> ValidAddress(CallMeaning(c).value.to)
  {
    hide AllSome, ToItem, AddressOrEmpty, BytesOrEmpty, MinimalBytes, AddressMeaning, InputMeaning, AddressItem, NatItem;
    var ts := [LeafOf(AddressOrEmpty(c.to)), LeafOf(MinimalBytes(c.value)), Some(Leaf(BytesOrEmpty(c.input)))];
    NodeItems(ts);
    AddressLeaf(c.to);
    NatLeaf(c.value);
    InputLeaf(c.input);
    assert TreeItems(ts) == [TreeItem(ts[0]), TreeItem(ts[1]), TreeItem(ts[2])];
    AllSomeOfThree(TreeItem(ts[0]), TreeItem(ts[1]), TreeItem(ts[2]));
  }

  lemma AllSomeOfThree(a: Option<Item>, b: Option<Item>, c: Option<Item>)
    ensures AllSome([a, b, c]) == if a.Some? && b.Some? && c.Some? then Some([a.value, b.value, c.value]) else None
  {
    var xs := [a, b, c];
    if a.Some? && b.Some? && c.Some? {
      assert AllSome(xs).value == [a.value, b.value, c.value];
    } else {
      assert xs[0].None? || xs[1].None? || xs[2].None?;
    }
  }

  lemma KeysLeaf(keys: seq<string>)
    ensures ToItem(Node(KeyTrees(keys)))
         == var m := KeysMeaning(keys); if m.Some? then Some(List(KeyItems(m.value))) else None
  {
    var trees := KeyTrees(keys);
    var parsed := seq(|keys|, i requires 0 <= i < |keys| => ToBytes(keys[i]));
    var xs := seq(|trees|, i requires 0 <= i < |trees| => ToItem(trees[i]));
    forall i | 0 <= i < |keys|
      ensures xs[i] == if parsed[i].Some? then Some(Str(parsed[i].value)) else None
    {
      ToBytesOfLower(keys[i]);
    }
    var m := AllSome(parsed);
    if m.Some? {
      assert AllSome(xs).value == KeyItems(m.value);
    } else {
      var i :| 0 <= i < |parsed| && parsed[i].None?;
      assert xs[i].None?;
    }
  }

  lemma AccessLeaf(it: AccessListItem)
    ensures ToItem(AccessTree(it)) == var m := AccessMeaning(it); if m.Some? then Some(AccessItem(m.value)) else None
  {
    ToBytesOfLower(it.address);
    KeysLeaf(it.storageKeys);
    var children := [Leaf(Lower(it.address)), Node(KeyTrees(it.storageKeys))];
    var xs := seq(|children|, i requires 0 <= i < |children| => ToItem(children[i]));
    assert ToItem(AccessTree(it)) == ListItem(AllSome(xs));
    assert xs == [ToItem(children[0]), ToItem(children[1])];
    if AccessMeaning(it).Some? {
      assert AllSome(xs).value == [xs[0].value, xs[1].value];
    } else {
      assert xs[0].None? || xs[1].None?;
    }
  }

  lemma CallsLeaf(calls: seq<AaCall>)
    ensures TreeItem(NodeOf(CallTrees(calls)))
         == var m := CallsMeaning(calls); if m.Some? then Some(List(CallItems(m.value))) else None
    ensures var m := CallsMeaning(calls);
      m.Some? ==> forall i :: 0 <= i < |m.value| ==> ValidAddress(m.value[i].to)
  {
    var trees := CallTrees(calls);
    var ms := seq(|calls|, i requires 0 <= i < |calls| => CallMeaning(calls[i]));
    NodeItems(trees);
    forall i | 0 <= i < |calls|
      ensures TreeItems(trees)[i] == if ms[i].Some? then Some(CallItem(ms[i].value)) else None
      ensures ms[i].Some? ==> ValidAddress(ms[i].value.to)
    {
      CallLeaf(calls[i]);
    }
    var m := AllSome(ms);
    if m.Some? {
      assert AllSome(TreeItems(trees)).value == CallItems(m.value);
    } else {
      var i :| 0 <= i < |ms| && ms[i].None?;
      assert TreeItems(trees)[i].None?;
    }
  }

  lemma AccessListLeaf(l: seq<AccessListItem>)
    ensures ToItem(Node(AccessTrees(l)))
         == var m := AccessListMeaning(l); if m.Some? then Some(List(AccessItems(m.value))) else None
  {
    var trees := AccessTrees(l);
    var xs := seq(|trees|, i requires 0 <= i < |trees| => ToItem(trees[i]));
    var ms := seq(|l|, i requires 0 <= i < |l| => AccessMeaning(l[i]));
    forall i | 0 <= i < |l|
      ensures xs[i] == if ms[i].Some? then Some(AccessItem(ms[i].value)) else None
    {
      AccessLeaf(l[i]);
    }
    var m := AllSome(ms);
    if m.Some? {
      assert AllSome(xs).value == AccessItems(m.value);
    } else {
      var i :| 0 <= i < |ms| && ms[i].None?;
      assert xs[i].None?;
    }
  }

  ghost predicate ValidValue(v: TxValue) {
    && ValidAddress(v.feePayer) && ValidAddress(v.root)
    && (forall i :: 0 <= i < |v.calls| ==> ValidAddress(v.calls[i].to))
  }

  // ------------------------------------------------ the nine fields of a transaction

  lemma AllSomeConcat<T>(a: seq<Option<T>>, b: seq<Option<T>>)
    ensures AllSome(a + b) == if AllSome(a).Some? && AllSome(b).Some? then Some(AllSome(a).value + AllSome(b).value) else None
  {
    if AllSome(a).None? {
      var i :| 0 <= i < |a| && a[i].None?;
      assert (a + b)[i].None?;
    } else if AllSome(b).None? {
      var i :| 0 <= i < |b| && b[i].None?;
      assert (a + b)[|a| + i].None?;
    } else {
      assert AllSome(a + b).value == AllSome(a).value + AllSome(b).value;
    }
  }

  lemma NumbersMean(ns: seq<int>)
    ensures AllSome(TreeItems(NumberTrees(ns)))
         == var m := NatMeanings(ns); if m.Some? then Some(NatItems(m.value)) else None
  {
    var xs := TreeItems(NumberTrees(ns));
    var ms := seq(|ns|, i requires 0 <= i < |ns| => NatMeaning(ns[i]));
    forall i | 0 <= i < |ns|
      ensures xs[i] == if ms[i].Some? then Some(NatItem(ms[i].value)) else None
    {
      NatLeaf(ns[i]);
    }
    if AllSome(ms).Some? {
      assert AllSome(xs).value == NatItems(AllSome(ms).value);
    } else {
      var i :| 0 <= i < |ms| && ms[i].None?;
      assert xs[i].None?;
    }
  }

  lemma AddressesMean(addrs: seq<Option<string>>)
    requires |addrs| == 2
    ensures AllSome(TreeItems(AddressTrees(addrs)))
         == var m := AddressMeanings(addrs); if m.Some? then Some([AddressItem(m.value[0]), AddressItem(m.value[1])]) else None
    ensures var m := AddressMeanings(addrs); m.Some? ==> ValidAddress(m.value[0]) && ValidAddress(m.value[1])
  {
    hide ToItem, TreeItem, AddressOrEmpty, AddressMeaning, AddressItem;
    var xs := TreeItems(AddressTrees(addrs));
    var ms := seq(|addrs|, i requires 0 <= i < |addrs| => AddressMeaning(addrs[i]));
    forall i | 0 <= i < |addrs|
      ensures xs[i] == if ms[i].Some? then Some(AddressItem(ms[i].value)) else None
      ensures ms[i].Some? ==> ValidAddress(ms[i].value)
    {
      AddressLeaf(addrs[i]);
    }
    if AllSome(ms).Some? {
      assert AllSome(xs).value == [AddressItem(ms[0].value), AddressItem(ms[1].value)];
    } else {
      var i :| 0 <= i < |ms| && ms[i].None?;
      assert xs[i].None?;
    }
  }

  lemma BodyMeans(tx: AaTx)
    ensures AllSome(TreeItems([NodeOf(CallTrees(tx.calls)), Some(Node(AccessTrees(AccessListOf(tx))))]))
         == var calls, access := CallsMeaning(tx.calls), AccessListMeaning(AccessListOf(tx));
            if calls.Some? && access.Some? then Some([List(CallItems(calls.value)), List(AccessItems(access.value))]) else None
  {
    CallsLeaf(tx.calls);
    AccessListLeaf(AccessListOf(tx));
    var xs := TreeItems([NodeOf(CallTrees(tx.calls)), Some(Node(AccessTrees(AccessListOf(tx))))]);
    if xs[0].Some? && xs[1].Some? {
      assert AllSome(xs).value == [xs[0].value, xs[1].value];
    }
  }

  lemma TreeItemsConcat(a: seq<Option<RlpTree>>, b: seq<Option<RlpTree>>)
    ensures TreeItems(a + b) == TreeItems(a) + TreeItems(b)
  {
  }

  /** The field list stands for the items of the transaction's meaning, and is
      refused exactly when the transaction has none. */
  lemma FieldsMean(tx: AaTx)
    ensures AllSome(TreeItems(FieldList(tx)))
         == var m := Meaning(tx); if m.Some? then Some(FieldItems(m.value)) else None
    ensures Meaning(tx).Some? ==> ValidValue(Meaning(tx).value)
  {
    var ns := [tx.chainId, tx.nonce, tx.maxPriorityFeePerGas, tx.maxFeePerGas, tx.gasLimit];
    var a := NumberTrees(ns);
    var b := [NodeOf(CallTrees(tx.calls)), Some(Node(AccessTrees(AccessListOf(tx))))];
    var c := AddressTrees([tx.feePayer, tx.root]);
    TreeItemsConcat(a + b, c);
    TreeItemsConcat(a, b);
    AllSomeConcat(TreeItems(a) + TreeItems(b), TreeItems(c));
    AllSomeConcat(TreeItems(a), TreeItems(b));
    NumbersMean(ns);
    BodyMeans(tx);
    AddressesMean([tx.feePayer, tx.root]);
    CallsLeaf(tx.calls);
    if Meaning(tx).Some? {
      assert NatMeanings(ns).value == Meaning(tx).value.Numbers();
    }
  }

  lemma NatsOfThree(a: int, b: nat, c: nat)
    ensures NatMeanings([a, b, c]) == if a >= 0 then Some([a, b, c]) else None
  {
    var ns := [a, b, c];
    var ms := seq(|ns|, i requires 0 <= i < |ns| => NatMeaning(ns[i]));
    assert NatMeanings(ns) == AllSome(ms);
    if a >= 0 {
      assert AllSome(ms).value == [a, b, c];
    } else {
      assert ms[0].None?;
    }
  }

  lemma SignatureMeans(sig: AaSignature)
    ensures AllSome(TreeItems(SignatureFields(sig)))
         == var m := SignatureMeaning(sig); if m.Some? then Some(SignatureItems(m.value)) else None
  {
    var r, s := ToNumber(sig.r), ToNumber(sig.s);
    if r.Some? && s.Some? {
      var ns := [sig.yParity, r.value, s.value];
      NumbersMean(ns);
      hide ToNumber, TreeItem, MinimalBytes, NatItem, NatItems, NumberTrees, TreeItems;
      NatsOfThree(sig.yParity, r.value, s.value);
      hide NatMeanings, AllSome;
    } else {
      assert TreeItems([None])[0].None?;
    }
  }

  // -------------------------------------------------------- items and wire bytes

  /** The type byte and the list of items, if the list can be encoded. */
  function Wire(items: seq<Item>): Option<bytes> {
    if Encodable(List(items)) then Some([SCI_AA_TX_TYPE] + Encode(List(items))) else None
  }

  lemma TypedIsWire(fields: seq<Option<RlpTree>>)
    ensures EncodeTyped(fields)
         == var items := AllSome(TreeItems(fields)); if items.Some? then Wire(items.value) else None
  {
    NodeItems(fields);
  }

  /** The wire bytes determine the items, and the items the bytes. */
  lemma ItemsOfWire(items: seq<Item>, raw: bytes)
    ensures TypedItems(raw) == Some(items) <==> Wire(items) == Some(raw)
  {
    hide Decode, Encode, Encodable;
    if Wire(items) == Some(raw) {
      DecodeOfEncode(List(items), []);
      assert raw[1..] == Encode(List(items)) + [];
    }
    if TypedItems(raw) == Some(items) {
      EncodeOfDecode(raw[1..]);
      assert Encode(List(items)) + [] == Encode(List(items));
      assert raw == [raw[0]] + raw[1..];
    }
  }

  lemma NatRoundTrip(n: nat, item: Item)
    ensures DecodeNat(item) == Some(n) <==> item == NatItem(n)
  {
    ValueOfMinimal(n);
    if DecodeNat(item) == Some(n) {
      MinimalOfValue(item.data);
    }
  }

  lemma AddressRoundTrip(a: Option<bytes>, item: Item)
    ensures DecodeAddress(item) == Some(a) <==> item == AddressItem(a) && ValidAddress(a)
  {
  }

  lemma CallRoundTrip(c: CallValue, item: Item)
    ensures DecodeCall(item) == Some(c) <==> item == CallItem(c) && ValidAddress(c.to)
  {
    if item.List? && |item.items| == 3 {
      assert item.items == [item.items[0], item.items[1], item.items[2]];
      NatRoundTrip(c.value, item.items[1]);
      AddressRoundTrip(c.to, item.items[0]);
    }
  }

  lemma KeysRoundTrip(keys: seq<bytes>, items: seq<Item>)
    ensures DecodeKeys(items) == Some(keys) <==> items == KeyItems(keys)
  {
    var xs := seq(|items|, i requires 0 <= i < |items| => DecodeStr(items[i]));
    if items == KeyItems(keys) {
      assert AllSome(xs).value == keys;
    }
    if DecodeKeys(items) == Some(keys) {
      assert forall i :: 0 <= i < |items| ==> xs[i] == Some(keys[i]);
    }
  }

  lemma AccessRoundTrip(a: AccessValue, item: Item)
    ensures DecodeAccess(item) == Some(a) <==> item == AccessItem(a)
  {
    if item.List? && |item.items| == 2 && item.items[1].List? {
      assert item.items == [item.items[0], item.items[1]];
      KeysRoundTrip(a.storageKeys, item.items[1].items);
    }
  }

  lemma CallsRoundTrip(calls: seq<CallValue>, items: seq<Item>)
    ensures DecodeCalls(items) == Some(calls) <==>
      items == CallItems(calls) && forall i :: 0 <= i < |calls| ==> ValidAddress(calls[i].to)
  {
    var xs := seq(|items|, i requires 0 <= i < |items| => DecodeCall(items[i]));
    if |items| == |calls| {
      forall i | 0 <= i < |items|
        ensures xs[i] == Some(calls[i]) <==> items[i] == CallItem(calls[i]) && ValidAddress(calls[i].to)
      {
        CallRoundTrip(calls[i], items[i]);
      }
      if DecodeCalls(items) == Some(calls) {
        assert forall i :: 0 <= i < |items| ==> xs[i] == Some(calls[i]);
      }
      if items == CallItems(calls) && forall i :: 0 <= i < |calls| ==> ValidAddress(calls[i].to) {
        assert forall i :: 0 <= i < |items| ==> xs[i] == Some(calls[i]);
        assert AllSome(xs).value == calls;
      }
    }
  }

  lemma AccessListRoundTrip(l: seq<AccessValue>, items: seq<Item>)
    ensures DecodeAccessList(items) == Some(l) <==> items == AccessItems(l)
  {
    var xs := seq(|items|, i requires 0 <= i < |items| => DecodeAccess(items[i]));
    if |items| == |l| {
      forall i | 0 <= i < |items|
        ensures xs[i] == Some(l[i]) <==> items[i] == AccessItem(l[i])
      {
        AccessRoundTrip(l[i], items[i]);
      }
      if DecodeAccessList(items) == Some(l) {
        assert forall i :: 0 <= i < |items| ==> xs[i] == Some(l[i]);
      }
      if items == AccessItems(l) {
        assert AllSome(xs).value == l;
      }
    }
  }

  /** Nine items decode to a value exactly when they are its items. */
  lemma DecodedFieldwise(v: TxValue, f: seq<Item>)
    requires |f| == 9
    ensures DecodeFields(f) == Some(v) <==>
      && f[5].List? && f[6].List?
      && DecodeNat(f[0]) == Some(v.chainId) && DecodeNat(f[1]) == Some(v.nonce)
      && DecodeNat(f[2]) == Some(v.maxPriorityFeePerGas) && DecodeNat(f[3]) == Some(v.maxFeePerGas)
      && DecodeNat(f[4]) == Some(v.gasLimit)
      && DecodeCalls(f[5].items) == Some(v.calls) && DecodeAccessList(f[6].items) == Some(v.accessList)
      && DecodeAddress(f[7]) == Some(v.feePayer) && DecodeAddress(f[8]) == Some(v.root)
  {
    hide DecodeNat, DecodeCalls, DecodeAccessList, DecodeAddress;
  }

  lemma ItemsFieldwise(v: TxValue, f: seq<Item>)
    requires |f| == 9
    ensures f == FieldItems(v) <==>
      && f[0] == NatItem(v.chainId) && f[1] == NatItem(v.nonce)
      && f[2] == NatItem(v.maxPriorityFeePerGas) && f[3] == NatItem(v.maxFeePerGas) && f[4] == NatItem(v.gasLimit)
      && f[5] == List(CallItems(v.calls)) && f[6] == List(AccessItems(v.accessList))
      && f[7] == AddressItem(v.feePayer) && f[8] == AddressItem(v.root)
  {
    hide NatItem, AddressItem, CallItems, AccessItems;
  }

  lemma FieldsRoundTrip(v: TxValue, f: seq<Item>)
    requires |f| == 9
    ensures DecodeFields(f) == Some(v) <==> f == FieldItems(v) && ValidValue(v)
  {
    hide FieldItems, DecodeFields, DecodeNat, DecodeCalls, DecodeAccessList, DecodeAddress;
    hide NatItem, AddressItem, CallItems, AccessItems;
    DecodedFieldwise(v, f);
    ItemsFieldwise(v, f);
    NatRoundTrip(v.chainId, f[0]);
    NatRoundTrip(v.nonce, f[1]);
    NatRoundTrip(v.maxPriorityFeePerGas, f[2]);
    NatRoundTrip(v.maxFeePerGas, f[3]);
    NatRoundTrip(v.gasLimit, f[4]);
    if f[5].List? && f[6].List? {
      CallsRoundTrip(v.calls, f[5].items);
      AccessListRoundTrip(v.accessList, f[6].items);
    }
    AddressRoundTrip(v.feePayer, f[7]);
    AddressRoundTrip(v.root, f[8]);
  }

  // ----------------------------------------------------------------- the theorems

  /** The signing payload is the wire form of the transaction's meaning; a
      transaction without one is refused. */
  lemma UnsignedIsWire(tx: AaTx)
    ensures EncodeUnsigned(tx) == var m := Meaning(tx); if m.Some? then Wire(FieldItems(m.value)) else None
  {
    TypedIsWire(FieldList(tx));
    FieldsMean(tx);
  }

  lemma SignedIsWire(tx: AaTx, sig: AaSignature)
    ensures EncodeSigned(tx, sig)
         == var m, s := Meaning(tx), SignatureMeaning(sig);
            if m.Some? && s.Some? then Wire(FieldItems(m.value) + SignatureItems(s.value)) else None
  {
    TypedIsWire(FieldList(tx) + SignatureFields(sig));
    TreeItemsConcat(FieldList(tx), SignatureFields(sig));
    AllSomeConcat(TreeItems(FieldList(tx)), TreeItems(SignatureFields(sig)));
    FieldsMean(tx);
    SignatureMeans(sig);
  }

  /** Decoding accepts exactly the wire forms of valid values: nothing else
      decodes, and no value has two wire forms. */
  lemma DecodeUnsignedExactly(raw: bytes, v: TxValue)
    ensures DecodeUnsigned(raw) == Some(v) <==> ValidValue(v) && Wire(FieldItems(v)) == Some(raw)
  {
    ItemsOfWire(FieldItems(v), raw);
    var items := TypedItems(raw);
    if items.Some? && |items.value| == 9 {
      FieldsRoundTrip(v, items.value);
    }
  }

  lemma DecodeSignedExactly(raw: bytes, v: TxValue, s: SignatureValue)
    ensures DecodeSigned(raw) == Some((v, s)) <==> ValidValue(v) && Wire(FieldItems(v) + SignatureItems(s)) == Some(raw)
  {
    ItemsOfWire(FieldItems(v) + SignatureItems(s), raw);
    var items := TypedItems(raw);
    if items.Some? && |items.value| == 12 {
      FieldsRoundTrip(v, items.value[..9]);
      SignatureRoundTrip(v, s, items.value);
    }
  }

  lemma SignatureRoundTrip(v: TxValue, s: SignatureValue, f: seq<Item>)
    requires |f| == 12
    ensures f == FieldItems(v) + SignatureItems(s) <==>
      && f[..9] == FieldItems(v) && DecodeNat(f[9]) == Some(s.yParity)
      && DecodeNat(f[10]) == Some(s.r) && DecodeNat(f[11]) == Some(s.s)
  {
    NatRoundTrip(s.yParity, f[9]);
    NatRoundTrip(s.r, f[10]);
    NatRoundTrip(s.s, f[11]);
    assert f[9..] == [f[9], f[10], f[11]];
    assert SignatureItems(s) == [NatItem(s.yParity), NatItem(s.r), NatItem(s.s)];
    var g := FieldItems(v);
    assert f == f[..9] + f[9..];
    assert (g + SignatureItems(s))[..9] == g && (g + SignatureItems(s))[9..] == SignatureItems(s);
  }

  /** All nine fields come back from the signing payload. */
  lemma UnsignedRoundTrip(tx: AaTx)
    requires EncodeUnsigned(tx).Some?
    ensures DecodeUnsigned(EncodeUnsigned(tx).value) == Meaning(tx)
  {
    UnsignedIsWire(tx);
    FieldsMean(tx);
    DecodeUnsignedExactly(EncodeUnsigned(tx).value, Meaning(tx).value);
  }

  /** All twelve fields come back from the signed transaction. */
  lemma SignedRoundTrip(tx: AaTx, sig: AaSignature)
    requires EncodeSigned(tx, sig).Some?
    ensures Meaning(tx).Some? && SignatureMeaning(sig).Some?
    ensures DecodeSigned(EncodeSigned(tx, sig).value) == Some((Meaning(tx).value, SignatureMeaning(sig).value))
  {
    SignedIsWire(tx, sig);
    FieldsMean(tx);
    DecodeSignedExactly(EncodeSigned(tx, sig).value, Meaning(tx).value, SignatureMeaning(sig).value);
  }

  /** Two transactions share a signing payload exactly when they mean the same:
      same numbers, same bytes. */
  lemma SamePayloadExactly(a: AaTx, b: AaTx)
    requires EncodeUnsigned(a).Some? && EncodeUnsigned(b).Some?
    ensures EncodeUnsigned(a) == EncodeUnsigned(b) <==> Meaning(a) == Meaning(b)
  {
    UnsignedRoundTrip(a);
    UnsignedRoundTrip(b);
    UnsignedIsWire(a);
    UnsignedIsWire(b);
  }

  /** No signed transaction is a signing payload. */
  lemma SignedIsNeverUnsigned(a: AaTx, sig: AaSignature, b: AaTx)
    requires EncodeSigned(a, sig).Some? && EncodeUnsigned(b).Some?
    ensures EncodeSigned(a, sig) != EncodeUnsigned(b)
  {
    SignedIsWire(a, sig);
    UnsignedIsWire(b);
    var f, g := FieldItems(Meaning(a).value) + SignatureItems(SignatureMeaning(sig).value), FieldItems(Meaning(b).value);
    ItemsOfWire(f, EncodeSigned(a, sig).value);
    ItemsOfWire(g, EncodeUnsigned(b).value);
    assert |f| == 12 && |g| == 9;
  }

  /** The node reads back exactly the transaction and signature that were sent, if
      and only if every field fits the node's types. */
  lemma NodeReadsExactly(tx: AaTx, sig: AaSignature)
    requires EncodeSigned(tx, sig).Some?
    ensures Meaning(tx).Some? && SignatureMeaning(sig).Some?
    ensures var v, s := Meaning(tx).value, SignatureMeaning(sig).value;
      NodeDecode(EncodeSigned(tx, sig).value)
      == if Representable(v) && RepresentableSignature(s) then Some((v, s)) else None
  {
    hide EncodeSigned, DecodeSigned, Meaning, SignatureMeaning;
    SignedRoundTrip(tx, sig);
  }
}
