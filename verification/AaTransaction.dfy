/** The account-abstraction transaction (EIP-2718 type 0x76): what the SDK signs
    and sends, and what the node's codec makes of it. */
module AaTransaction {
  import opened Bytes
  import opened Hex
  import opened Rlp

  const SCI_AA_TX_TYPE: byte := 0x76

  // ---------------------------------------------- transactions as the SDK sees them

  /** `None` is `null` or `undefined`. */
  datatype AaCall = AaCall(to: Option<string>, value: int, input: Option<string>)

  datatype AccessListItem = AccessListItem(address: string, storageKeys: seq<string>)

  datatype AaTx = AaTx(
    chainId: int, nonce: int, maxPriorityFeePerGas: int, maxFeePerGas: int, gasLimit: int,
    calls: seq<AaCall>, accessList: Option<seq<AccessListItem>>,
    feePayer: Option<string>, root: Option<string>)

  datatype AaSignature = AaSignature(yParity: int, r: string, s: string)

  datatype RlpTree = Leaf(hex: string) | Node(children: seq<RlpTree>)

  /** All values, or nothing if one is missing: a thrown error anywhere. */
  function AllSome<T>(xs: seq<Option<T>>): Option<seq<T>> {
    if forall i :: 0 <= i < |xs| ==> xs[i].Some?
    then Some(seq(|xs|, i requires 0 <= i < |xs| => xs[i].value))
    else None
  }

  function MinimalBytes(value: int): Option<string> {
    if value < 0 then None
    else if value == 0 then Some("0x")
    else Some("0x" + PadEven(Digits(value)))
  }

  /** `/^0x[0-9a-fA-F]{40}$/` */
  predicate IsAddress(s: string) { |s| == 42 && s[..2] == "0x" && AllHex(s[2..]) }

  function AddressOrEmpty(addr: Option<string>): Option<string> {
    match addr
    case None => Some("0x")
    case Some(a) => if IsAddress(a) then Some(Lower(a)) else None
  }

  function BytesOrEmpty(input: Option<string>): string {
    if input.Some? && input.value != "" && input.value != "0x" then Lower(input.value) else "0x"
  }

  function LeafOf(hex: Option<string>): Option<RlpTree> {
    if hex.Some? then Some(Leaf(hex.value)) else None
  }

  function NodeOf(children: seq<Option<RlpTree>>): Option<RlpTree> {
    var all := AllSome(children);
    if all.Some? then Some(Node(all.value)) else None
  }

  function CallTree(c: AaCall): Option<RlpTree> {
    NodeOf([LeafOf(AddressOrEmpty(c.to)), LeafOf(MinimalBytes(c.value)), Some(Leaf(BytesOrEmpty(c.input)))])
  }

  function AccessTree(it: AccessListItem): RlpTree {
    Node([Leaf(Lower(it.address)), Node(KeyTrees(it.storageKeys))])
  }

  function KeyTrees(keys: seq<string>): seq<RlpTree> {
    seq(|keys|, i requires 0 <= i < |keys| => Leaf(Lower(keys[i])))
  }

  function CallTrees(calls: seq<AaCall>): seq<Option<RlpTree>> {
    seq(|calls|, i requires 0 <= i < |calls| => CallTree(calls[i]))
  }

  function AccessTrees(l: seq<AccessListItem>): seq<RlpTree> {
    seq(|l|, i requires 0 <= i < |l| => AccessTree(l[i]))
  }

  function AccessListOf(tx: AaTx): seq<AccessListItem> {
    if tx.accessList.Some? then tx.accessList.value else []
  }

  function NumberTrees(ns: seq<int>): seq<Option<RlpTree>> {
    seq(|ns|, i requires 0 <= i < |ns| => LeafOf(MinimalBytes(ns[i])))
  }

  function AddressTrees(addrs: seq<Option<string>>): seq<Option<RlpTree>> {
    seq(|addrs|, i requires 0 <= i < |addrs| => LeafOf(AddressOrEmpty(addrs[i])))
  }

  /** The nine fields shared by the signing payload and the signed transaction. */
  function FieldList(tx: AaTx): seq<Option<RlpTree>> {
    NumberTrees([tx.chainId, tx.nonce, tx.maxPriorityFeePerGas, tx.maxFeePerGas, tx.gasLimit])
    + [NodeOf(CallTrees(tx.calls)), Some(Node(AccessTrees(AccessListOf(tx))))]
    + AddressTrees([tx.feePayer, tx.root])
  }

  /** The tree with every leaf converted to bytes. */
  function ToItem(t: RlpTree): Option<Item> {
    match t
    case Leaf(hex) => var b := ToBytes(hex); if b.Some? then Some(Str(b.value)) else None
    case Node(children) =>
      ListItem(AllSome(seq(|children|, i requires 0 <= i < |children| => ToItem(children[i]))))
  }

  function ListItem(items: Option<seq<Item>>): Option<Item> {
    if items.Some? then Some(List(items.value)) else None
  }

  /** The type byte in front of the RLP of a tree. */
  function EncodeTyped(fields: seq<Option<RlpTree>>): Option<bytes> {
    match NodeOf(fields)
    case None => None
    case Some(tree) =>
      match ToItem(tree)
      case None => None
      case Some(item) => if Encodable(item) then Some([SCI_AA_TX_TYPE] + Encode(item)) else None
  }

  function EncodeUnsigned(tx: AaTx): Option<bytes> {
    EncodeTyped(FieldList(tx))
  }

  /** `r` and `s` go through `BigInt(hex)`, which refuses what is not hex. */
  function SignatureFields(sig: AaSignature): seq<Option<RlpTree>> {
    var r, s := ToNumber(sig.r), ToNumber(sig.s);
    if r.Some? && s.Some? then NumberTrees([sig.yParity, r.value, s.value]) else [None]
  }

  function EncodeSigned(tx: AaTx, sig: AaSignature): Option<bytes> {
    EncodeTyped(FieldList(tx) + SignatureFields(sig))
  }

  // --------------------------------------------------- what a transaction means

  datatype CallValue = CallValue(to: Option<bytes>, value: nat, input: bytes)

  datatype AccessValue = AccessValue(address: bytes, storageKeys: seq<bytes>)

  /** A transaction without spelling: numbers, byte strings, absent or 20-byte
      addresses. */
  datatype TxValue = TxValue(
    chainId: nat, nonce: nat, maxPriorityFeePerGas: nat, maxFeePerGas: nat, gasLimit: nat,
    calls: seq<CallValue>, accessList: seq<AccessValue>, feePayer: Option<bytes>, root: Option<bytes>)
  {
    function Numbers(): (ns: seq<nat>) { [chainId, nonce, maxPriorityFeePerGas, maxFeePerGas, gasLimit] }
  }

  datatype SignatureValue = SignatureValue(yParity: nat, r: nat, s: nat)

  function NatMeaning(v: int): Option<nat> { if v >= 0 then Some(v) else None }

  function NatMeanings(ns: seq<int>): Option<seq<nat>> {
    AllSome(seq(|ns|, i requires 0 <= i < |ns| => NatMeaning(ns[i])))
  }

  function AddressMeanings(addrs: seq<Option<string>>): Option<seq<Option<bytes>>> {
    AllSome(seq(|addrs|, i requires 0 <= i < |addrs| => AddressMeaning(addrs[i])))
  }

  function AddressMeaning(a: Option<string>): Option<Option<bytes>> {
    match a
    case None => Some(None)
    case Some(s) => if IsAddress(s) then Some(ToBytes(s)) else None
  }

  function InputMeaning(input: Option<string>): Option<bytes> {
    if input.None? || input.value == "" then Some([]) else ToBytes(input.value)
  }

  function CallMeaning(c: AaCall): Option<CallValue> {
    var to, value, input := AddressMeaning(c.to), NatMeaning(c.value), InputMeaning(c.input);
    if to.Some? && value.Some? && input.Some? then Some(CallValue(to.value, value.value, input.value)) else None
  }

  function AccessMeaning(it: AccessListItem): Option<AccessValue> {
    var address := ToBytes(it.address);
    var keys := KeysMeaning(it.storageKeys);
    if address.Some? && keys.Some? then Some(AccessValue(address.value, keys.value)) else None
  }

  function KeysMeaning(keys: seq<string>): Option<seq<bytes>> {
    AllSome(seq(|keys|, i requires 0 <= i < |keys| => ToBytes(keys[i])))
  }

  function CallsMeaning(calls: seq<AaCall>): Option<seq<CallValue>> {
    AllSome(seq(|calls|, i requires 0 <= i < |calls| => CallMeaning(calls[i])))
  }

  function AccessListMeaning(l: seq<AccessListItem>): Option<seq<AccessValue>> {
    AllSome(seq(|l|, i requires 0 <= i < |l| => AccessMeaning(l[i])))
  }

  function Meaning(tx: AaTx): Option<TxValue> {
    var n := NatMeanings([tx.chainId, tx.nonce, tx.maxPriorityFeePerGas, tx.maxFeePerGas, tx.gasLimit]);
    var calls, access := CallsMeaning(tx.calls), AccessListMeaning(AccessListOf(tx));
    var a := AddressMeanings([tx.feePayer, tx.root]);
    if n.Some? && calls.Some? && access.Some? && a.Some?
    then Some(TxValue(n.value[0], n.value[1], n.value[2], n.value[3], n.value[4],
                      calls.value, access.value, a.value[0], a.value[1]))
    else None
  }

  function SignatureMeaning(sig: AaSignature): Option<SignatureValue> {
    var r, s := ToNumber(sig.r), ToNumber(sig.s);
    if sig.yParity >= 0 && r.Some? && s.Some? then Some(SignatureValue(sig.yParity, r.value, s.value)) else None
  }

  // ------------------------------------------------------ the wire form of a value

  function NatItem(n: nat): Item { Str(Minimal(n)) }

  function AddressItem(a: Option<bytes>): Item { Str(if a.Some? then a.value else []) }

  function CallItem(c: CallValue): Item { List([AddressItem(c.to), NatItem(c.value), Str(c.input)]) }

  function AccessItem(a: AccessValue): Item {
    List([Str(a.address), List(KeyItems(a.storageKeys))])
  }

  function KeyItems(keys: seq<bytes>): seq<Item> {
    seq(|keys|, i requires 0 <= i < |keys| => Str(keys[i]))
  }

  function CallItems(calls: seq<CallValue>): seq<Item> {
    seq(|calls|, i requires 0 <= i < |calls| => CallItem(calls[i]))
  }

  function AccessItems(l: seq<AccessValue>): seq<Item> {
    seq(|l|, i requires 0 <= i < |l| => AccessItem(l[i]))
  }

  function NatItems(ns: seq<nat>): seq<Item> {
    seq(|ns|, i requires 0 <= i < |ns| => NatItem(ns[i]))
  }

  function FieldItems(v: TxValue): seq<Item> {
    NatItems(v.Numbers()) + [List(CallItems(v.calls)), List(AccessItems(v.accessList))]
    + [AddressItem(v.feePayer), AddressItem(v.root)]
  }

  function SignatureItems(s: SignatureValue): seq<Item> { NatItems([s.yParity, s.r, s.s]) }

  // ------------------------------------------------------------------- decoding

  function DecodeNat(item: Item): Option<nat> {
    if item.Str? && HasNoLeadingZero(item.data) then Some(Value(item.data)) else None
  }

  function DecodeAddress(item: Item): Option<Option<bytes>> {
    if item.Str? && |item.data| == 0 then Some(None)
    else if item.Str? && |item.data| == 20 then Some(Some(item.data))
    else None
  }

  function DecodeStr(item: Item): Option<bytes> { if item.Str? then Some(item.data) else None }

  function DecodeCall(item: Item): Option<CallValue> {
    if item.Str? || |item.items| != 3 then None
    else
      var to, value, input := DecodeAddress(item.items[0]), DecodeNat(item.items[1]), DecodeStr(item.items[2]);
      if to.Some? && value.Some? && input.Some? then Some(CallValue(to.value, value.value, input.value)) else None
  }

  function DecodeAccess(item: Item): Option<AccessValue> {
    if item.Str? || |item.items| != 2 || item.items[1].Str? then None
    else
      var address, keys := DecodeStr(item.items[0]), DecodeKeys(item.items[1].items);
      if address.Some? && keys.Some? then Some(AccessValue(address.value, keys.value)) else None
  }

  function DecodeKeys(items: seq<Item>): Option<seq<bytes>> {
    AllSome(seq(|items|, i requires 0 <= i < |items| => DecodeStr(items[i])))
  }

  function DecodeCalls(items: seq<Item>): Option<seq<CallValue>> {
    AllSome(seq(|items|, i requires 0 <= i < |items| => DecodeCall(items[i])))
  }

  function DecodeAccessList(items: seq<Item>): Option<seq<AccessValue>> {
    AllSome(seq(|items|, i requires 0 <= i < |items| => DecodeAccess(items[i])))
  }

  function DecodeFields(f: seq<Item>): Option<TxValue>
    requires |f| == 9
  {
    if f[5].Str? || f[6].Str? then None
    else
      var n0, n1, n2, n3, n4 := DecodeNat(f[0]), DecodeNat(f[1]), DecodeNat(f[2]), DecodeNat(f[3]), DecodeNat(f[4]);
      var calls, access := DecodeCalls(f[5].items), DecodeAccessList(f[6].items);
      var payer, root := DecodeAddress(f[7]), DecodeAddress(f[8]);
      if n0.Some? && n1.Some? && n2.Some? && n3.Some? && n4.Some?
         && calls.Some? && access.Some? && payer.Some? && root.Some?
      then Some(TxValue(n0.value, n1.value, n2.value, n3.value, n4.value,
                        calls.value, access.value, payer.value, root.value))
      else None
  }

  /** The items behind the type byte, if the bytes are exactly one list. */
  function TypedItems(raw: bytes): Option<seq<Item>> {
    if raw == [] || raw[0] != SCI_AA_TX_TYPE then None
    else
      match Rlp.Decode(raw[1..])
      case Some((List(items), rest)) => if rest == [] then Some(items) else None
      case _ => None
  }

  function DecodeUnsigned(raw: bytes): Option<TxValue> {
    var items := TypedItems(raw);
    if items.Some? && |items.value| == 9 then DecodeFields(items.value) else None
  }

  function DecodeSigned(raw: bytes): Option<(TxValue, SignatureValue)> {
    var items := TypedItems(raw);
    if items.Some? && |items.value| == 12 then
      var f := items.value;
      var v := DecodeFields(f[..9]);
      var parity, r, s := DecodeNat(f[9]), DecodeNat(f[10]), DecodeNat(f[11]);
      if v.Some? && parity.Some? && r.Some? && s.Some?
      then Some((v.value, SignatureValue(parity.value, r.value, s.value)))
      else None
    else None
  }

  /** What the node's field types can hold: 64-bit chain id, nonce and gas limit,
      128-bit fees, 256-bit call values, 20-byte addresses and 32-byte keys. */
  predicate Representable(v: TxValue) {
    && v.chainId < Pow256(8) && v.nonce < Pow256(8) && v.gasLimit < Pow256(8)
    && v.maxPriorityFeePerGas < Pow256(16) && v.maxFeePerGas < Pow256(16)
    && (forall i :: 0 <= i < |v.calls| ==> v.calls[i].value < Pow256(32))
    && (forall i :: 0 <= i < |v.accessList| ==> |v.accessList[i].address| == 20)
    && (forall i :: 0 <= i < |v.accessList| ==>
         forall k :: 0 <= k < |v.accessList[i].storageKeys| ==> |v.accessList[i].storageKeys[k]| == 32)
  }

  predicate RepresentableSignature(s: SignatureValue) { s.yParity < 2 && s.r < Pow256(32) && s.s < Pow256(32) }

  /** The node's decoder for a signed transaction. */
  function NodeDecode(raw: bytes): Option<(TxValue, SignatureValue)> {
    match DecodeSigned(raw)
    case None => None
    case Some((v, s)) => if Representable(v) && RepresentableSignature(s) then Some((v, s)) else None
  }
}
