/** Which differences between two transactions the encoding forgets: hex case, one
    padding zero, and how absence is written. Nothing else. */
module AaSpelling {
  import opened Bytes
  import opened Hex
  import opened Rlp
  import opened AaTransaction
  import AaProofs

  // ------------------------------------------------------------------ hex strings

  lemma DigitByCase(c: char, d: char)
    requires IsHexDigit(c) && IsHexDigit(d)
    ensures DigitValue(c) == DigitValue(d) <==> LowerChar(c) == LowerChar(d)
  {
  }

  lemma PairOfDigits(a: nat, b: nat, c: nat, d: nat)
    requires b < 16 && d < 16 && 16 * a + b == 16 * c + d
    ensures a == c && b == d
  {
  }

  /** Digits that spell the same bytes are the same digits, up to case. */
  lemma PairBytesInjective(a: string, b: string)
    requires |a| % 2 == 0 && |b| % 2 == 0 && AllHex(a) && AllHex(b)
    ensures PairBytes(a) == PairBytes(b) <==> Lower(a) == Lower(b)
  {
    if Lower(a) == Lower(b) {
      forall i | 0 <= i < |a|
        ensures DigitValue(a[i]) == DigitValue(b[i])
      {
        assert Lower(a)[i] == Lower(b)[i];
        DigitByCase(a[i], b[i]);
      }
      SamePairBytes(a, b);
    }
    if PairBytes(a) == PairBytes(b) {
      assert |PairBytes(a)| == |PairBytes(b)|;
      forall i | 0 <= i < |a|
        ensures LowerChar(a[i]) == LowerChar(b[i])
      {
        SameDigitAt(a, b, i);
      }
    }
  }

  lemma SameDigitAt(a: string, b: string, i: nat)
    requires |a| % 2 == 0 && |a| == |b| && AllHex(a) && AllHex(b) && i < |a| && PairBytes(a) == PairBytes(b)
    ensures LowerChar(a[i]) == LowerChar(b[i])
  {
    var k := i / 2;
    assert PairBytes(a)[k] == PairBytes(b)[k];
    hide IsHexDigit, DigitValue, LowerChar;
    PairOfDigits(DigitValue(a[2 * k]), DigitValue(a[2 * k + 1]), DigitValue(b[2 * k]), DigitValue(b[2 * k + 1]));
    assert i == 2 * k || i == 2 * k + 1;
    DigitByCase(a[i], b[i]);
  }

  /** The same digits after the prefix up to case, or one of them lacks the zero that
      makes its length even. */
  predicate SameHex(a: string, b: string) {
    var x, y := Lower(AfterPrefix(a)), Lower(AfterPrefix(b));
    x == y || (|x| % 2 == 1 && "0" + x == y) || (|y| % 2 == 1 && "0" + y == x)
  }

  lemma SameHexExactly(a: string, b: string)
    requires ToBytes(a).Some? && ToBytes(b).Some?
    ensures ToBytes(a) == ToBytes(b) <==> SameHex(a, b)
  {
    var x, y := AfterPrefix(a), AfterPrefix(b);
    PadEvenOfLower(x);
    PadEvenOfLower(y);
    PairBytesInjective(PadEven(x), PadEven(y));
    hide AllHex, PairBytes, Lower, AfterPrefix;
    PadEvenExactly(Lower(x), Lower(y));
  }

  lemma PadEvenExactly(x: string, y: string)
    ensures PadEven(x) == PadEven(y) <==> x == y || (|x| % 2 == 1 && "0" + x == y) || (|y| % 2 == 1 && "0" + y == x)
  {
    assert ("0" + x)[1..] == x && ("0" + y)[1..] == y;
  }

  // -------------------------------------------------------------------- parts

  predicate SameAddress(a: Option<string>, b: Option<string>) {
    match (a, b)
    case (None, None) => true
    case (Some(s), Some(t)) => Lower(s) == Lower(t)
    case _ => false
  }

  /** Absent, or nothing behind the prefix. */
  predicate NoInput(input: Option<string>) {
    input.None? || |input.value| <= 2
  }

  predicate SameInput(a: Option<string>, b: Option<string>) {
    if NoInput(a) || NoInput(b) then NoInput(a) && NoInput(b)
    else SameHex(a.value, b.value)
  }

  predicate SameCall(a: AaCall, b: AaCall) {
    SameAddress(a.to, b.to) && a.value == b.value && SameInput(a.input, b.input)
  }

  predicate SameKeys(a: seq<string>, b: seq<string>) {
    |a| == |b| && forall i :: 0 <= i < |a| ==> SameHex(a[i], b[i])
  }

  predicate SameAccess(a: AccessListItem, b: AccessListItem) {
    SameHex(a.address, b.address) && SameKeys(a.storageKeys, b.storageKeys)
  }

  predicate SameCalls(a: seq<AaCall>, b: seq<AaCall>) {
    |a| == |b| && forall i :: 0 <= i < |a| ==> SameCall(a[i], b[i])
  }

  predicate SameAccessList(a: seq<AccessListItem>, b: seq<AccessListItem>) {
    |a| == |b| && forall i :: 0 <= i < |a| ==> SameAccess(a[i], b[i])
  }

  /** Equal numbers, and parts that differ at most in spelling; no access list is the
      empty one. */
  predicate SameSpelling(a: AaTx, b: AaTx) {
    && a.chainId == b.chainId && a.nonce == b.nonce && a.maxPriorityFeePerGas == b.maxPriorityFeePerGas
    && a.maxFeePerGas == b.maxFeePerGas && a.gasLimit == b.gasLimit
    && SameCalls(a.calls, b.calls) && SameAccessList(AccessListOf(a), AccessListOf(b))
    && SameAddress(a.feePayer, b.feePayer) && SameAddress(a.root, b.root)
  }

  lemma AddressExactly(a: Option<string>, b: Option<string>)
    requires AddressMeaning(a).Some? && AddressMeaning(b).Some?
    ensures AddressMeaning(a) == AddressMeaning(b) <==> SameAddress(a, b)
  {
    if a.Some? && b.Some? {
      var s, t := a.value, b.value;
      SameHexExactly(s, t);
      assert s == "0x" + s[2..] && t == "0x" + t[2..];
      LowerOfPrefixed(s);
      LowerOfPrefixed(t);
      hide Lower;
      assert Lower(s)[2..] == Lower(s[2..]) && Lower(t)[2..] == Lower(t[2..]);
    }
  }

  lemma LowerOfPrefixed(s: string)
    requires |s| >= 2 && s[..2] == "0x"
    ensures Lower(s) == "0x" + Lower(s[2..])
  {
    assert s[0] == '0' && s[1] == 'x';
  }

  lemma InputExactly(a: Option<string>, b: Option<string>)
    requires InputMeaning(a).Some? && InputMeaning(b).Some?
    ensures InputMeaning(a) == InputMeaning(b) <==> SameInput(a, b)
  {
    InputLength(a);
    InputLength(b);
    if !NoInput(a) && !NoInput(b) {
      SameHexExactly(a.value, b.value);
    }
  }

  lemma InputLength(a: Option<string>)
    requires InputMeaning(a).Some?
    ensures NoInput(a) <==> InputMeaning(a).value == []
  {
    if !NoInput(a) {
      assert |PadEven(AfterPrefix(a.value))| >= 2;
    }
  }

  lemma CallExactly(a: AaCall, b: AaCall)
    requires CallMeaning(a).Some? && CallMeaning(b).Some?
    ensures CallMeaning(a) == CallMeaning(b) <==> SameCall(a, b)
  {
    AddressExactly(a.to, b.to);
    InputExactly(a.input, b.input);
    hide AddressMeaning, InputMeaning, SameAddress, SameInput;
  }

  // ---------------------------------------------------------------------- lists

  lemma AllSomeSame<T>(xs: seq<Option<T>>, ys: seq<Option<T>>)
    requires AllSome(xs).Some? && AllSome(ys).Some?
    ensures AllSome(xs) == AllSome(ys) <==> |xs| == |ys| && forall i :: 0 <= i < |xs| ==> xs[i] == ys[i]
  {
    if AllSome(xs) == AllSome(ys) {
      forall i | 0 <= i < |xs|
        ensures xs[i] == ys[i]
      {
        assert AllSome(xs).value[i] == AllSome(ys).value[i];
      }
    }
    if |xs| == |ys| && forall i :: 0 <= i < |xs| ==> xs[i] == ys[i] {
      assert xs == ys;
    }
  }

  lemma KeysExactly(a: seq<string>, b: seq<string>)
    requires KeysMeaning(a).Some? && KeysMeaning(b).Some?
    ensures KeysMeaning(a) == KeysMeaning(b) <==> SameKeys(a, b)
  {
    var xs := seq(|a|, i requires 0 <= i < |a| => ToBytes(a[i]));
    var ys := seq(|b|, i requires 0 <= i < |b| => ToBytes(b[i]));
    AllSomeSame(xs, ys);
    forall i | 0 <= i < |a| && i < |b|
      ensures xs[i] == ys[i] <==> SameHex(a[i], b[i])
    {
      assert xs[i].Some? && ys[i].Some?;
      SameHexExactly(a[i], b[i]);
    }
  }

  lemma AccessExactly(a: AccessListItem, b: AccessListItem)
    requires AccessMeaning(a).Some? && AccessMeaning(b).Some?
    ensures AccessMeaning(a) == AccessMeaning(b) <==> SameAccess(a, b)
  {
    SameHexExactly(a.address, b.address);
    KeysExactly(a.storageKeys, b.storageKeys);
    hide SameHex, SameKeys, KeysMeaning;
  }

  lemma CallsExactly(a: seq<AaCall>, b: seq<AaCall>)
    requires CallsMeaning(a).Some? && CallsMeaning(b).Some?
    ensures CallsMeaning(a) == CallsMeaning(b) <==> SameCalls(a, b)
  {
    var xs := seq(|a|, i requires 0 <= i < |a| => CallMeaning(a[i]));
    var ys := seq(|b|, i requires 0 <= i < |b| => CallMeaning(b[i]));
    AllSomeSame(xs, ys);
    hide SameCall, CallMeaning;
    forall i | 0 <= i < |a| && i < |b|
      ensures xs[i] == ys[i] <==> SameCall(a[i], b[i])
    {
      assert xs[i].Some? && ys[i].Some?;
      CallExactly(a[i], b[i]);
    }
  }

  lemma AccessListExactly(a: seq<AccessListItem>, b: seq<AccessListItem>)
    requires AccessListMeaning(a).Some? && AccessListMeaning(b).Some?
    ensures AccessListMeaning(a) == AccessListMeaning(b) <==> SameAccessList(a, b)
  {
    var xs := seq(|a|, i requires 0 <= i < |a| => AccessMeaning(a[i]));
    var ys := seq(|b|, i requires 0 <= i < |b| => AccessMeaning(b[i]));
    AllSomeSame(xs, ys);
    hide SameAccess, AccessMeaning;
    forall i | 0 <= i < |a| && i < |b|
      ensures xs[i] == ys[i] <==> SameAccess(a[i], b[i])
    {
      assert xs[i].Some? && ys[i].Some?;
      AccessExactly(a[i], b[i]);
    }
  }

  // --------------------------------------------------------------- whole transactions

  /** The meaning, field by field. */
  lemma MeaningFields(tx: AaTx)
    requires Meaning(tx).Some?
    ensures var v := Meaning(tx).value;
      && v.chainId == tx.chainId && v.nonce == tx.nonce && v.maxPriorityFeePerGas == tx.maxPriorityFeePerGas
      && v.maxFeePerGas == tx.maxFeePerGas && v.gasLimit == tx.gasLimit
      && CallsMeaning(tx.calls) == Some(v.calls) && AccessListMeaning(AccessListOf(tx)) == Some(v.accessList)
      && AddressMeaning(tx.feePayer) == Some(v.feePayer) && AddressMeaning(tx.root) == Some(v.root)
  {
    hide CallsMeaning, AccessListMeaning, AddressMeaning;
    var ns, addrs := [tx.chainId, tx.nonce, tx.maxPriorityFeePerGas, tx.maxFeePerGas, tx.gasLimit], [tx.feePayer, tx.root];
    var xs := seq(|ns|, i requires 0 <= i < |ns| => NatMeaning(ns[i]));
    var ys := seq(|addrs|, i requires 0 <= i < |addrs| => AddressMeaning(addrs[i]));
    assert xs[0].Some? && xs[1].Some? && xs[2].Some? && xs[3].Some? && xs[4].Some?;
    assert ys[0].Some? && ys[1].Some?;
  }

  /** Two transactions mean the same exactly when they differ in spelling at most. */
  lemma SameMeaningExactly(a: AaTx, b: AaTx)
    requires Meaning(a).Some? && Meaning(b).Some?
    ensures Meaning(a) == Meaning(b) <==> SameSpelling(a, b)
  {
    MeaningFields(a);
    MeaningFields(b);
    CallsExactly(a.calls, b.calls);
    AccessListExactly(AccessListOf(a), AccessListOf(b));
    AddressExactly(a.feePayer, b.feePayer);
    AddressExactly(a.root, b.root);
    hide Meaning, CallsMeaning, AccessListMeaning, AddressMeaning, SameCalls, SameAccessList, SameAddress, AccessListOf;
  }

  /** Two transactions share a signing payload exactly when they have the same numbers
      and the same strings, up to hex case, one padding zero and the spelling of
      absence. */
  lemma SamePayloadExactly(a: AaTx, b: AaTx)
    requires EncodeUnsigned(a).Some? && EncodeUnsigned(b).Some?
    ensures EncodeUnsigned(a) == EncodeUnsigned(b) <==> SameSpelling(a, b)
  {
    hide EncodeUnsigned, Meaning, SameSpelling;
    AaProofs.UnsignedIsWire(a);
    AaProofs.UnsignedIsWire(b);
    AaProofs.SamePayloadExactly(a, b);
    SameMeaningExactly(a, b);
  }

  // ------------------------------------------------------------------ the wire, field by field

  /** The bytes an optional hex string spells. */
  function Spelled(s: Option<string>): bytes {
    if s.Some? && ToBytes(s.value).Some? then ToBytes(s.value).value else []
  }

  /** To, value, input. */
  ghost predicate CallOnWire(item: Item, c: AaCall) {
    c.value >= 0 && item == List([Str(Spelled(c.to)), Str(Minimal(c.value)), Str(Spelled(c.input))])
  }

  ghost predicate KeysOnWire(items: seq<Item>, keys: seq<string>) {
    |items| == |keys| && forall i :: 0 <= i < |keys| ==> items[i] == Str(Spelled(Some(keys[i])))
  }

  /** Address, then the storage keys. */
  ghost predicate AccessOnWire(item: Item, it: AccessListItem) {
    exists keys :: item == List([Str(Spelled(Some(it.address))), List(keys)]) && KeysOnWire(keys, it.storageKeys)
  }

  ghost predicate CallsOnWire(items: seq<Item>, calls: seq<AaCall>) {
    |items| == |calls| && forall i :: 0 <= i < |calls| ==> CallOnWire(items[i], calls[i])
  }

  ghost predicate AccessListOnWire(items: seq<Item>, l: seq<AccessListItem>) {
    |items| == |l| && forall i :: 0 <= i < |l| ==> AccessOnWire(items[i], l[i])
  }

  /** Chain id, nonce, priority fee, fee cap, gas limit, calls, access list, fee payer,
      root. */
  ghost predicate FieldsOnWire(f: seq<Item>, tx: AaTx) {
    && tx.chainId >= 0 && tx.nonce >= 0 && tx.maxPriorityFeePerGas >= 0 && tx.maxFeePerGas >= 0 && tx.gasLimit >= 0
    && |f| == 9
    && f[0] == Str(Minimal(tx.chainId)) && f[1] == Str(Minimal(tx.nonce))
    && f[2] == Str(Minimal(tx.maxPriorityFeePerGas)) && f[3] == Str(Minimal(tx.maxFeePerGas))
    && f[4] == Str(Minimal(tx.gasLimit))
    && f[5].List? && CallsOnWire(f[5].items, tx.calls)
    && f[6].List? && AccessListOnWire(f[6].items, AccessListOf(tx))
    && f[7] == Str(Spelled(tx.feePayer)) && f[8] == Str(Spelled(tx.root))
  }

  lemma AddressSpelled(a: Option<string>)
    requires AddressMeaning(a).Some?
    ensures AddressItem(AddressMeaning(a).value) == Str(Spelled(a))
  {
  }

  lemma NothingSpelled()
    ensures ToBytes("") == Some([])
  {
    assert AfterPrefix("") == "" && PadEven("") == "" && PairBytes("") == [];
  }

  lemma InputSpelled(a: Option<string>)
    requires InputMeaning(a).Some?
    ensures InputMeaning(a).value == Spelled(a)
  {
    NothingSpelled();
    hide ToBytes;
  }

  lemma CallSpelled(c: AaCall)
    requires CallMeaning(c).Some?
    ensures CallOnWire(CallItem(CallMeaning(c).value), c)
  {
    AddressSpelled(c.to);
    InputSpelled(c.input);
    hide AddressMeaning, InputMeaning, AddressItem, Spelled;
  }

  lemma KeysSpelled(keys: seq<string>)
    requires KeysMeaning(keys).Some?
    ensures KeysOnWire(KeyItems(KeysMeaning(keys).value), keys)
  {
    var xs := seq(|keys|, i requires 0 <= i < |keys| => ToBytes(keys[i]));
    assert forall i :: 0 <= i < |keys| ==> xs[i].Some? && KeysMeaning(keys).value[i] == xs[i].value;
  }

  lemma AccessSpelled(it: AccessListItem)
    requires AccessMeaning(it).Some?
    ensures AccessOnWire(AccessItem(AccessMeaning(it).value), it)
  {
    KeysSpelled(it.storageKeys);
    var keys := KeyItems(KeysMeaning(it.storageKeys).value);
    hide KeysMeaning, KeyItems, KeysOnWire;
    assert AccessItem(AccessMeaning(it).value) == List([Str(Spelled(Some(it.address))), List(keys)]);
  }

  lemma CallsSpelled(calls: seq<AaCall>)
    requires CallsMeaning(calls).Some?
    ensures CallsOnWire(CallItems(CallsMeaning(calls).value), calls)
  {
    var xs := seq(|calls|, i requires 0 <= i < |calls| => CallMeaning(calls[i]));
    forall i | 0 <= i < |calls|
      ensures CallOnWire(CallItems(CallsMeaning(calls).value)[i], calls[i])
    {
      assert xs[i].Some? && CallsMeaning(calls).value[i] == xs[i].value;
      CallSpelled(calls[i]);
    }
  }

  lemma AccessListSpelled(l: seq<AccessListItem>)
    requires AccessListMeaning(l).Some?
    ensures AccessListOnWire(AccessItems(AccessListMeaning(l).value), l)
  {
    var xs := seq(|l|, i requires 0 <= i < |l| => AccessMeaning(l[i]));
    forall i | 0 <= i < |l|
      ensures AccessOnWire(AccessItems(AccessListMeaning(l).value)[i], l[i])
    {
      assert xs[i].Some? && AccessListMeaning(l).value[i] == xs[i].value;
      AccessSpelled(l[i]);
    }
  }

  lemma FieldsSpelled(tx: AaTx)
    requires Meaning(tx).Some?
    ensures FieldsOnWire(FieldItems(Meaning(tx).value), tx)
  {
    MeaningFields(tx);
    CallsSpelled(tx.calls);
    AccessListSpelled(AccessListOf(tx));
    AddressSpelled(tx.feePayer);
    AddressSpelled(tx.root);
    AaProofs.ItemsFieldwise(Meaning(tx).value, FieldItems(Meaning(tx).value));
    hide Meaning, FieldItems, CallItems, AccessItems, AddressItem, AddressMeaning, CallsMeaning, AccessListMeaning, Spelled,
      CallsOnWire, AccessListOnWire;
  }

  /** The signing payload on the wire: 0x76 and one RLP list of the nine fields in this
      order. */
  lemma UnsignedLayout(tx: AaTx)
    requires EncodeUnsigned(tx).Some?
    ensures var raw := EncodeUnsigned(tx).value;
      raw != [] && raw[0] == 0x76 && exists f :: Rlp.Decode(raw[1..]) == Some((List(f), [])) && FieldsOnWire(f, tx)
  {
    AaProofs.UnsignedIsWire(tx);
    FieldsSpelled(tx);
    var f, raw := FieldItems(Meaning(tx).value), EncodeUnsigned(tx).value;
    hide Meaning, FieldItems, EncodeUnsigned, FieldsOnWire;
    OnTheWire(f, raw);
  }

  lemma OnTheWire(f: seq<Item>, raw: bytes)
    requires AaProofs.Wire(f) == Some(raw)
    ensures raw != [] && raw[0] == 0x76 && Rlp.Decode(raw[1..]) == Some((List(f), []))
  {
    AaProofs.ItemsOfWire(f, raw);
  }

  /** The parity, and the numbers that the bytes of r and s spell. */
  function SignatureOnWire(sig: AaSignature): seq<Item> {
    var r, s := Spelled(Some(sig.r)), Spelled(Some(sig.s));
    if sig.yParity < 0 then [] else [Str(Minimal(sig.yParity)), Str(Minimal(Value(r))), Str(Minimal(Value(s)))]
  }

  lemma SignatureSpelled(sig: AaSignature)
    requires SignatureMeaning(sig).Some?
    ensures sig.yParity >= 0 && ToBytes(sig.r).Some? && ToBytes(sig.s).Some?
    ensures SignatureItems(SignatureMeaning(sig).value) == SignatureOnWire(sig)
  {
    hide ToBytes, ToNumber, Value, Minimal;
    NumberIsValue(sig.r);
    NumberIsValue(sig.s);
    var v := SignatureMeaning(sig).value;
    assert NatItems([v.yParity, v.r, v.s]) == [NatItem(v.yParity), NatItem(v.r), NatItem(v.s)];
  }

  /** The signed transaction: the same nine, then these three. */
  lemma SignedLayout(tx: AaTx, sig: AaSignature)
    requires EncodeSigned(tx, sig).Some?
    ensures sig.yParity >= 0 && ToBytes(sig.r).Some? && ToBytes(sig.s).Some?
    ensures var raw := EncodeSigned(tx, sig).value;
      && raw != [] && raw[0] == 0x76
      && exists f :: FieldsOnWire(f, tx) && Rlp.Decode(raw[1..]) == Some((List(f + SignatureOnWire(sig)), []))
  {
    AaProofs.SignedIsWire(tx, sig);
    FieldsSpelled(tx);
    SignatureSpelled(sig);
    hide Meaning, FieldItems, EncodeSigned, FieldsOnWire, SignatureItems, SignatureMeaning, SignatureOnWire, ToBytes, Rlp.Decode;
    OnTheWire(FieldItems(Meaning(tx).value) + SignatureOnWire(sig), EncodeSigned(tx, sig).value);
  }

  /** Decoding a signed transaction returns the numbers that the signature's bytes spell. */
  lemma SignatureReadBack(tx: AaTx, sig: AaSignature)
    requires EncodeSigned(tx, sig).Some?
    ensures ToBytes(sig.r).Some? && ToBytes(sig.s).Some? && sig.yParity >= 0
    ensures var d := DecodeSigned(EncodeSigned(tx, sig).value);
      && d.Some? && d.value.1.yParity == sig.yParity
      && d.value.1.r == Value(ToBytes(sig.r).value) && d.value.1.s == Value(ToBytes(sig.s).value)
  {
    hide EncodeSigned, DecodeSigned, Meaning;
    AaProofs.SignedRoundTrip(tx, sig);
    NumberIsValue(sig.r);
    NumberIsValue(sig.s);
  }

  /** What the SDK takes for an address. */
  lemma AddressForm(s: string)
    ensures AddressMeaning(Some(s)).Some? <==>
      && |s| == 42 && s[0] == '0' && s[1] == 'x'
      && forall i :: 2 <= i < 42 ==> ('0' <= s[i] <= '9' || 'a' <= s[i] <= 'f' || 'A' <= s[i] <= 'F')
  {
    if |s| == 42 {
      assert forall i :: 0 <= i < 40 ==> s[2..][i] == s[i + 2];
      assert forall i :: 2 <= i < 42 ==> s[i] == s[2..][i - 2];
      assert s[..2] == "0x" <==> s[0] == '0' && s[1] == 'x';
    }
  }

  // ------------------------------------------------------------------ the node's widths

  lemma Widths()
    ensures Pow256(8) == 0x1_0000_0000_0000_0000
    ensures Pow256(16) == 0x1_0000_0000_0000_0000_0000_0000_0000_0000
    ensures Pow256(32) == 0x1_0000_0000_0000_0000_0000_0000_0000_0000_0000_0000_0000_0000_0000_0000_0000_0000
  {
    ValueOfByte(0);
    assert Pow256(10) == 256 * Pow256(9) == 65536 * Pow256(8);
    assert Pow256(12) == 256 * Pow256(11) == 65536 * Pow256(10);
    assert Pow256(14) == 256 * Pow256(13) == 65536 * Pow256(12);
    assert Pow256(16) == 256 * Pow256(15) == 65536 * Pow256(14);
    assert Pow256(18) == 256 * Pow256(17) == 65536 * Pow256(16);
    assert Pow256(20) == 256 * Pow256(19) == 65536 * Pow256(18);
    assert Pow256(22) == 256 * Pow256(21) == 65536 * Pow256(20);
    assert Pow256(24) == 256 * Pow256(23) == 65536 * Pow256(22);
    assert Pow256(26) == 256 * Pow256(25) == 65536 * Pow256(24);
    assert Pow256(28) == 256 * Pow256(27) == 65536 * Pow256(26);
    assert Pow256(30) == 256 * Pow256(29) == 65536 * Pow256(28);
    assert Pow256(32) == 256 * Pow256(31) == 65536 * Pow256(30);
  }

  /** 64 bits for chain id, nonce and gas limit, 128 for the fees, 256 for call values, r
      and s, a parity of 0 or 1, 20-byte addresses and 32-byte keys. */
  lemma NodeWidths(v: TxValue, s: SignatureValue)
    ensures Representable(v) <==>
      && v.chainId < 0x1_0000_0000_0000_0000 && v.nonce < 0x1_0000_0000_0000_0000
      && v.gasLimit < 0x1_0000_0000_0000_0000
      && v.maxPriorityFeePerGas < 0x1_0000_0000_0000_0000_0000_0000_0000_0000
      && v.maxFeePerGas < 0x1_0000_0000_0000_0000_0000_0000_0000_0000
      && (forall i :: 0 <= i < |v.calls| ==>
           v.calls[i].value
           < 0x1_0000_0000_0000_0000_0000_0000_0000_0000_0000_0000_0000_0000_0000_0000_0000_0000)
      && (forall i :: 0 <= i < |v.accessList| ==> |v.accessList[i].address| == 20)
      && (forall i :: 0 <= i < |v.accessList| ==>
           forall k :: 0 <= k < |v.accessList[i].storageKeys| ==> |v.accessList[i].storageKeys[k]| == 32)
    ensures RepresentableSignature(s) <==>
      && (s.yParity == 0 || s.yParity == 1)
      && s.r < 0x1_0000_0000_0000_0000_0000_0000_0000_0000_0000_0000_0000_0000_0000_0000_0000_0000
      && s.s < 0x1_0000_0000_0000_0000_0000_0000_0000_0000_0000_0000_0000_0000_0000_0000_0000_0000
  {
    Widths();
    hide Pow256;
  }
}
