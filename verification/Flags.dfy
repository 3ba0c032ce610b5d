/** Flag labels (src/xrp/flags.c). */
module Flags {
  import opened CString

  const TRANSACTION_PAYMENT: nat := 0
  const TRANSACTION_ACCOUNT_SET: nat := 3
  const TRANSACTION_OFFER_CREATE: nat := 7
  const TRANSACTION_PAYMENT_CHANNEL_CLAIM: nat := 15
  const TRANSACTION_TRUST_SET: nat := 20
  const TRANSACTION_NFTOKEN_MINT: nat := 25
  const TRANSACTION_NFTOKEN_CREATE_OFFER: nat := 27
  const TRANSACTION_AMM_DEPOSIT: nat := 36
  const TRANSACTION_AMM_WITHDRAW: nat := 37

  const FULLY_CANONICAL_SIG: bv32 := 0x8000_0000

  datatype Label = Label(bit: bv32, text: string)

  predicate HasFlag(value: bv32, flag: bv32) { value & flag == flag }

  // ---------- The tables ----------

  function AccountSetLabels(): seq<Label> {
    [Label(0x0001_0000, "Require Dest Tag"), Label(0x0002_0000, "Optional Dest Tag"),
     Label(0x0004_0000, "Require Auth"), Label(0x0008_0000, "Optional Auth"),
     Label(0x0010_0000, "Disallow XRP"), Label(0x0020_0000, "Allow XRP")]
  }

  function OfferCreateLabels(): seq<Label> {
    [Label(0x0001_0000, "Passive"), Label(0x0002_0000, "Immediate or Cancel"),
     Label(0x0004_0000, "Fill or Kill"), Label(0x0008_0000, "Sell")]
  }

  function PaymentLabels(): seq<Label> {
    [Label(0x0001_0000, "No Direct Ripple"), Label(0x0002_0000, "Partial Payment"),
     Label(0x0004_0000, "Limit Quality")]
  }

  function TrustSetLabels(): seq<Label> {
    [Label(0x0001_0000, "Set Auth"), Label(0x0002_0000, "Set No Ripple"), Label(0x0004_0000, "Clear No Ripple"),
     Label(0x0010_0000, "Set Freeze"), Label(0x0020_0000, "Clear Freeze")]
  }

  function PaymentChannelClaimLabels(): seq<Label> {
    [Label(0x0001_0000, "Renew"), Label(0x0002_0000, "Close")]
  }

  /** tfTrustLine (4) is left out on purpose. */
  function NftokenMintLabels(): seq<Label> {
    [Label(0x0000_0001, "Burnable"), Label(0x0000_0002, "Only XRP"), Label(0x0000_0008, "Transferable"),
     Label(0x0000_0010, "Mutable")]
  }

  function NftokenCreateOfferLabels(): seq<Label> {
    [Label(0x0000_0001, "Sell")]
  }

  function AmmDepositLabels(): seq<Label> {
    [Label(0x0001_0000, "LP Token"), Label(0x0008_0000, "Single Asset"), Label(0x0010_0000, "Two Asset"),
     Label(0x0020_0000, "One Asset LP Token"), Label(0x0040_0000, "Limit LP Token"),
     Label(0x0080_0000, "Two Asset If Empty")]
  }

  function AmmWithdrawLabels(): seq<Label> {
    [Label(0x0001_0000, "LP Token"), Label(0x0008_0000, "Single Asset"), Label(0x0010_0000, "Two Asset"),
     Label(0x0020_0000, "One Asset LP Token"), Label(0x0040_0000, "Limit LP Token"),
     Label(0x0002_0000, "Withdraw All"), Label(0x0004_0000, "One Asset Withdraw All")]
  }

  predicate HasFormatter(txType: nat) {
    txType in {TRANSACTION_ACCOUNT_SET, TRANSACTION_OFFER_CREATE, TRANSACTION_PAYMENT, TRANSACTION_TRUST_SET,
               TRANSACTION_PAYMENT_CHANNEL_CLAIM, TRANSACTION_NFTOKEN_MINT, TRANSACTION_NFTOKEN_CREATE_OFFER,
               TRANSACTION_AMM_DEPOSIT, TRANSACTION_AMM_WITHDRAW}
  }

  function Labels(txType: nat): seq<Label> {
    if txType == TRANSACTION_ACCOUNT_SET then AccountSetLabels()
    else if txType == TRANSACTION_OFFER_CREATE then OfferCreateLabels()
    else if txType == TRANSACTION_PAYMENT then PaymentLabels()
    else if txType == TRANSACTION_TRUST_SET then TrustSetLabels()
    else if txType == TRANSACTION_PAYMENT_CHANNEL_CLAIM then PaymentChannelClaimLabels()
    else if txType == TRANSACTION_NFTOKEN_MINT then NftokenMintLabels()
    else if txType == TRANSACTION_NFTOKEN_CREATE_OFFER then NftokenCreateOfferLabels()
    else if txType == TRANSACTION_AMM_DEPOSIT then AmmDepositLabels()
    else if txType == TRANSACTION_AMM_WITHDRAW then AmmWithdrawLabels()
    else []
  }

  /** The `*_KNOWN_FLAGS` masks. */
  function KnownFlags(txType: nat): bv32 {
    if txType == TRANSACTION_ACCOUNT_SET then 0x003F_0000
    else if txType == TRANSACTION_OFFER_CREATE then 0x000F_0000
    else if txType == TRANSACTION_PAYMENT then 0x0007_0000
    else if txType == TRANSACTION_TRUST_SET then 0x0037_0000
    else if txType == TRANSACTION_PAYMENT_CHANNEL_CLAIM then 0x0003_0000
    else if txType == TRANSACTION_NFTOKEN_MINT then 0x0000_001B
    else if txType == TRANSACTION_NFTOKEN_CREATE_OFFER then 0x0000_0001
    else if txType == TRANSACTION_AMM_DEPOSIT then 0x00F9_0000
    else if txType == TRANSACTION_AMM_WITHDRAW then 0x007F_0000
    else 0
  }

  /** `has_unknown_flags` */
  predicate HasUnknownFlags(txType: nat, value: bv32) {
    HasFormatter(txType) && value & !(FULLY_CANONICAL_SIG | KnownFlags(txType)) != 0
  }

  // ---------- The text ----------

  /** The labels of the bits that are set, in table order. */
  function Selected(labels: seq<Label>, value: bv32): seq<string> {
    if labels == [] then []
    else var last := labels[|labels| - 1];
      Selected(labels[..|labels| - 1], value) + if HasFlag(value, last.bit) then [last.text] else []
  }

  function Join(items: seq<string>): string {
    if items == [] then ""
    else if |items| == 1 then items[0]
    else Join(items[..|items| - 1]) + ", " + items[|items| - 1]
  }

  function FlagText(txType: nat, value: bv32): string {
    Join(Selected(Labels(txType), value))
  }

  // ---------- Reading the text back ----------

  ghost predicate IsItem(item: string) {
    item != "" && item[0] != ' ' && forall i :: 0 <= i < |item| ==> item[i] != ',' && item[i] != '\0'
  }

  ghost predicate AreItems(items: seq<string>) {
    forall i :: 0 <= i < |items| ==> IsItem(items[i])
  }

  /** Where the last item starts. */
  function LastItem(text: string): string {
    if text == "" || text[|text| - 1] == ',' then "" else LastItem(text[..|text| - 1]) + [text[|text| - 1]]
  }

  lemma {:induction false} LastItemOf(before: string, item: string)
    requires ',' !in item && (before == "" || before[|before| - 1] == ',')
    ensures LastItem(before + item) == item
  {
    if item != "" {
      var init := item[..|item| - 1];
      assert (before + item)[..|before + item| - 1] == before + init;
      LastItemOf(before, init);
    } else {
      assert before + item == before;
    }
  }

  /** The last item shows whether it is the only one. */
  lemma JoinEnds(items: seq<string>)
    requires AreItems(items) && items != []
    ensures LastItem(Join(items)) == (if |items| == 1 then "" else " ") + items[|items| - 1]
    ensures LastItem(Join(items)) != ""
  {
    var last := items[|items| - 1];
    assert IsItem(last);
    if |items| == 1 {
      assert "" + last == last;
      LastItemOf("", last);
    } else {
      LastOfSeveral(Join(items[..|items| - 1]), last);
    }
  }

  lemma LastOfSeveral(init: string, last: string)
    requires ',' !in last
    ensures LastItem(init + ", " + last) == " " + last
  {
    assert init + ", " + last == (init + ",") + (" " + last);
    LastItemOf(init + ",", " " + last);
  }

  lemma SameEnd(a: string, single: bool, b: string, single': bool)
    requires IsItem(a) && IsItem(b)
    requires (if single then "" else " ") + a == (if single' then "" else " ") + b
    ensures single == single' && a == b
  {
    assert "" + a == a && "" + b == b;
    assert (" " + a)[0] == ' ' && (" " + b)[0] == ' ' && (" " + a)[1..] == a && (" " + b)[1..] == b;
  }

  lemma SamePrefix(a: string, b: string, tail: string)
    requires a + tail == b + tail
    ensures a == b
  {
    assert |a| == |b|;
    assert a == (a + tail)[..|a|] && b == (b + tail)[..|b|];
  }

  /** The comma-joined text determines the items. */
  lemma {:induction false} JoinInjective(items: seq<string>, other: seq<string>)
    requires AreItems(items) && AreItems(other) && Join(items) == Join(other)
    ensures items == other
    decreases |items|, 1
  {
    if items != [] {
      JoinEnds(items);
    }
    if other != [] {
      JoinEnds(other);
    }
    assert items != [] <==> other != [];
    if items != [] {
      SameEnd(items[|items| - 1], |items| == 1, other[|other| - 1], |other| == 1);
      if |items| > 1 {
        SameInit(items, other);
      }
    }
  }

  lemma {:induction false} SameInit(items: seq<string>, other: seq<string>)
    requires AreItems(items) && AreItems(other) && Join(items) == Join(other)
    requires |items| > 1 && |other| > 1 && items[|items| - 1] == other[|other| - 1]
    ensures items == other
    decreases |items|, 0
  {
    var last, init, init' := items[|items| - 1], items[..|items| - 1], other[..|other| - 1];
    assert Join(items) == Join(init) + (", " + last) && Join(other) == Join(init') + (", " + last);
    SamePrefix(Join(init), Join(init'), ", " + last);
    JoinInjective(init, init');
    assert items == init + [last] && other == init' + [last];
  }

  ghost predicate ItemLabels(labels: seq<Label>) {
    forall i :: 0 <= i < |labels| ==> IsItem(labels[i].text)
  }

  ghost predicate DistinctLabels(labels: seq<Label>) {
    && ItemLabels(labels)
    && forall i, j :: 0 <= i < j < |labels| ==> labels[i].text != labels[j].text
  }

  lemma {:induction false} SelectedItems(labels: seq<Label>, value: bv32)
    requires ItemLabels(labels)
    ensures AreItems(Selected(labels, value))
    ensures forall text :: text in Selected(labels, value) ==> exists i :: 0 <= i < |labels| && labels[i].text == text
  {
    if labels != [] {
      var init, last := labels[..|labels| - 1], labels[|labels| - 1];
      SelectedItems(init, value);
      forall text | text in Selected(labels, value) ensures exists i :: 0 <= i < |labels| && labels[i].text == text {
        if text in Selected(init, value) {
          var i :| 0 <= i < |init| && init[i].text == text;
          assert labels[i].text == text;
        } else {
          assert labels[|labels| - 1].text == text;
        }
      }
    }
  }

  /** The selected labels determine the bits. */
  lemma {:induction false} SelectedInjective(labels: seq<Label>, value: bv32, other: bv32)
    requires DistinctLabels(labels) && Selected(labels, value) == Selected(labels, other)
    ensures forall i :: 0 <= i < |labels| ==> HasFlag(value, labels[i].bit) == HasFlag(other, labels[i].bit)
  {
    if labels != [] {
      var init, last := labels[..|labels| - 1], labels[|labels| - 1];
      LastIsNew(labels, value);
      LastIsNew(labels, other);
      hide HasFlag;
      SameBefore(Selected(init, value), Selected(init, other), HasFlag(value, last.bit), last.text);
      SelectedInjective(init, value, other);
      assert forall i :: 0 <= i < |init| ==> labels[i] == init[i];
    }
  }

  lemma SameBefore(a: seq<string>, b: seq<string>, appended: bool, text: string)
    requires a + (if appended then [text] else []) == b + (if appended then [text] else [])
    ensures a == b
  {
    var tail := if appended then [text] else [];
    assert |a| == |b|;
    assert a == (a + tail)[..|a|] && b == (b + tail)[..|b|];
  }

  lemma LastIsNew(labels: seq<Label>, value: bv32)
    requires DistinctLabels(labels) && labels != []
    ensures labels[|labels| - 1].text in Selected(labels, value) <==> HasFlag(value, labels[|labels| - 1].bit)
  {
    var init, last := labels[..|labels| - 1], labels[|labels| - 1];
    SelectedItems(init, value);
    assert forall i :: 0 <= i < |init| ==> init[i].text != last.text;
  }

  lemma AccountSetTexts()
    ensures IsItem("Require Dest Tag") && IsItem("Optional Dest Tag") && IsItem("Require Auth") &&
      IsItem("Optional Auth") && IsItem("Disallow XRP") && IsItem("Allow XRP")
  {
  }

  lemma AccountSetDistinct()
    ensures DistinctLabels(AccountSetLabels())
  {
    AccountSetTexts();
    hide IsItem;
    var labels := AccountSetLabels();
    assert labels[0].text == "Require Dest Tag" && labels[1].text == "Optional Dest Tag" &&
      labels[2].text == "Require Auth" && labels[3].text == "Optional Auth" && labels[4].text == "Disallow XRP" &&
      labels[5].text == "Allow XRP";
  }

  lemma OfferCreateTexts()
    ensures IsItem("Passive") && IsItem("Immediate or Cancel") && IsItem("Fill or Kill") && IsItem("Sell")
  {
  }

  lemma OfferCreateDistinct()
    ensures DistinctLabels(OfferCreateLabels())
  {
    OfferCreateTexts();
    hide IsItem;
    var labels := OfferCreateLabels();
    assert labels[0].text == "Passive" && labels[1].text == "Immediate or Cancel" &&
      labels[2].text == "Fill or Kill" && labels[3].text == "Sell";
  }

  lemma PaymentTexts()
    ensures IsItem("No Direct Ripple") && IsItem("Partial Payment") && IsItem("Limit Quality")
  {
  }

  lemma PaymentDistinct()
    ensures DistinctLabels(PaymentLabels())
  {
    PaymentTexts();
    hide IsItem;
    var labels := PaymentLabels();
    assert labels[0].text == "No Direct Ripple" && labels[1].text == "Partial Payment" &&
      labels[2].text == "Limit Quality";
  }

  lemma TrustSetTexts()
    ensures IsItem("Set Auth") && IsItem("Set No Ripple") && IsItem("Clear No Ripple") && IsItem("Set Freeze") &&
      IsItem("Clear Freeze")
  {
  }

  lemma TrustSetDistinct()
    ensures DistinctLabels(TrustSetLabels())
  {
    TrustSetTexts();
    hide IsItem;
    var labels := TrustSetLabels();
    assert labels[0].text == "Set Auth" && labels[1].text == "Set No Ripple" &&
      labels[2].text == "Clear No Ripple" && labels[3].text == "Set Freeze" && labels[4].text == "Clear Freeze";
  }

  lemma PaymentChannelClaimTexts()
    ensures IsItem("Renew") && IsItem("Close")
  {
  }

  lemma PaymentChannelClaimDistinct()
    ensures DistinctLabels(PaymentChannelClaimLabels())
  {
    PaymentChannelClaimTexts();
    hide IsItem;
    var labels := PaymentChannelClaimLabels();
    assert labels[0].text == "Renew" && labels[1].text == "Close";
  }

  lemma NftokenMintTexts()
    ensures IsItem("Burnable") && IsItem("Only XRP") && IsItem("Transferable") && IsItem("Mutable")
  {
  }

  lemma NftokenMintDistinct()
    ensures DistinctLabels(NftokenMintLabels())
  {
    NftokenMintTexts();
    hide IsItem;
    var labels := NftokenMintLabels();
    assert labels[0].text == "Burnable" && labels[1].text == "Only XRP" && labels[2].text == "Transferable" &&
      labels[3].text == "Mutable";
  }

  lemma NftokenCreateOfferTexts()
    ensures IsItem("Sell")
  {
  }

  lemma NftokenCreateOfferDistinct()
    ensures DistinctLabels(NftokenCreateOfferLabels())
  {
    NftokenCreateOfferTexts();
    hide IsItem;
    var labels := NftokenCreateOfferLabels();
    assert labels[0].text == "Sell";
  }

  lemma AmmDepositTexts()
    ensures IsItem("LP Token") && IsItem("Single Asset") && IsItem("Two Asset") && IsItem("One Asset LP Token") &&
      IsItem("Limit LP Token") && IsItem("Two Asset If Empty")
  {
  }

  lemma AmmDepositDistinct()
    ensures DistinctLabels(AmmDepositLabels())
  {
    AmmDepositTexts();
    hide IsItem;
    var labels := AmmDepositLabels();
    assert labels[0].text == "LP Token" && labels[1].text == "Single Asset" && labels[2].text == "Two Asset" &&
      labels[3].text == "One Asset LP Token" && labels[4].text == "Limit LP Token" &&
      labels[5].text == "Two Asset If Empty";
  }

  lemma AmmWithdrawTexts()
    ensures IsItem("LP Token") && IsItem("Single Asset") && IsItem("Two Asset") && IsItem("One Asset LP Token") &&
      IsItem("Limit LP Token") && IsItem("Withdraw All") && IsItem("One Asset Withdraw All")
  {
  }

  lemma AmmWithdrawDistinct()
    ensures DistinctLabels(AmmWithdrawLabels())
  {
    AmmWithdrawTexts();
    hide IsItem;
    var labels := AmmWithdrawLabels();
    assert labels[0].text == "LP Token" && labels[1].text == "Single Asset" && labels[2].text == "Two Asset" &&
      labels[3].text == "One Asset LP Token" && labels[4].text == "Limit LP Token" &&
      labels[5].text == "Withdraw All" && labels[6].text == "One Asset Withdraw All";
  }

  lemma TablesAreDistinct(txType: nat)
    ensures DistinctLabels(Labels(txType))
  {
    AccountSetDistinct();
    OfferCreateDistinct();
    PaymentDistinct();
    TrustSetDistinct();
    PaymentChannelClaimDistinct();
    NftokenMintDistinct();
    NftokenCreateOfferDistinct();
    AmmDepositDistinct();
    AmmWithdrawDistinct();
  }

  ghost predicate SameFlags(labels: seq<Label>, value: bv32, other: bv32) {
    forall i :: 0 <= i < |labels| ==> HasFlag(value, labels[i].bit) == HasFlag(other, labels[i].bit)
  }

  lemma FullMasks(txType: nat, value: bv32, other: bv32)
    requires txType == TRANSACTION_ACCOUNT_SET || txType == TRANSACTION_TRUST_SET
    requires !HasUnknownFlags(txType, value) && !HasUnknownFlags(txType, other)
    requires SameFlags(Labels(txType), value, other)
    ensures value | FULLY_CANONICAL_SIG == other | FULLY_CANONICAL_SIG
  {
    var labels := Labels(txType);
    if txType == TRANSACTION_ACCOUNT_SET {
      assert labels[0].bit == 0x0001_0000 && labels[1].bit == 0x0002_0000 && labels[2].bit == 0x0004_0000 &&
        labels[3].bit == 0x0008_0000 && labels[4].bit == 0x0010_0000 && labels[5].bit == 0x0020_0000;
    } else {
      assert labels[0].bit == 0x0001_0000 && labels[1].bit == 0x0002_0000 && labels[2].bit == 0x0004_0000 &&
        labels[3].bit == 0x0010_0000 && labels[4].bit == 0x0020_0000;
    }
  }

  lemma OfferMasks(txType: nat, value: bv32, other: bv32)
    requires txType == TRANSACTION_OFFER_CREATE || txType == TRANSACTION_PAYMENT
        || txType == TRANSACTION_PAYMENT_CHANNEL_CLAIM
    requires !HasUnknownFlags(txType, value) && !HasUnknownFlags(txType, other)
    requires SameFlags(Labels(txType), value, other)
    ensures value | FULLY_CANONICAL_SIG == other | FULLY_CANONICAL_SIG
  {
    var labels := Labels(txType);
    if txType == TRANSACTION_OFFER_CREATE {
      assert labels[0].bit == 0x0001_0000 && labels[1].bit == 0x0002_0000 && labels[2].bit == 0x0004_0000 &&
        labels[3].bit == 0x0008_0000;
    } else if txType == TRANSACTION_PAYMENT {
      assert labels[0].bit == 0x0001_0000 && labels[1].bit == 0x0002_0000 && labels[2].bit == 0x0004_0000;
    } else {
      assert labels[0].bit == 0x0001_0000 && labels[1].bit == 0x0002_0000;
    }
  }

  lemma NftokenMasks(txType: nat, value: bv32, other: bv32)
    requires txType == TRANSACTION_NFTOKEN_MINT || txType == TRANSACTION_NFTOKEN_CREATE_OFFER
    requires !HasUnknownFlags(txType, value) && !HasUnknownFlags(txType, other)
    requires SameFlags(Labels(txType), value, other)
    ensures value | FULLY_CANONICAL_SIG == other | FULLY_CANONICAL_SIG
  {
    var labels := Labels(txType);
    if txType == TRANSACTION_NFTOKEN_MINT {
      assert labels[0].bit == 0x0000_0001 && labels[1].bit == 0x0000_0002 && labels[2].bit == 0x0000_0008 &&
        labels[3].bit == 0x0000_0010;
    } else {
      assert labels[0].bit == 0x0000_0001;
    }
  }

  lemma AmmDepositMask(txType: nat, value: bv32, other: bv32)
    requires txType == TRANSACTION_AMM_DEPOSIT
    requires !HasUnknownFlags(txType, value) && !HasUnknownFlags(txType, other)
    requires SameFlags(Labels(txType), value, other)
    ensures value | FULLY_CANONICAL_SIG == other | FULLY_CANONICAL_SIG
  {
    var labels := Labels(txType);
    assert labels[0].bit == 0x0001_0000 && labels[1].bit == 0x0008_0000 && labels[2].bit == 0x0010_0000 &&
      labels[3].bit == 0x0020_0000 && labels[4].bit == 0x0040_0000 && labels[5].bit == 0x0080_0000;
  }

  lemma AmmWithdrawMask(txType: nat, value: bv32, other: bv32)
    requires txType == TRANSACTION_AMM_WITHDRAW
    requires !HasUnknownFlags(txType, value) && !HasUnknownFlags(txType, other)
    requires SameFlags(Labels(txType), value, other)
    ensures value | FULLY_CANONICAL_SIG == other | FULLY_CANONICAL_SIG
  {
    var labels := Labels(txType);
    assert labels[0].bit == 0x0001_0000 && labels[1].bit == 0x0008_0000 && labels[2].bit == 0x0010_0000 &&
      labels[3].bit == 0x0020_0000 && labels[4].bit == 0x0040_0000 && labels[5].bit == 0x0002_0000 &&
      labels[6].bit == 0x0004_0000;
  }

  /** Every label stands for a known bit. */
  lemma LabelsAreKnown(txType: nat)
    ensures forall i :: 0 <= i < |Labels(txType)| ==>
      Labels(txType)[i].bit & KnownFlags(txType) == Labels(txType)[i].bit
  {
  }

  /** The mask of each type is exactly the bits of its table: values without unknown
      bits that agree on the labels are the same, but for the signature bit, and no
      label stands for a bit outside the mask. */
  lemma MaskIsTable(txType: nat, value: bv32, other: bv32)
    requires HasFormatter(txType)
    requires !HasUnknownFlags(txType, value) && !HasUnknownFlags(txType, other)
    requires SameFlags(Labels(txType), value, other)
    ensures value | FULLY_CANONICAL_SIG == other | FULLY_CANONICAL_SIG
    ensures forall i :: 0 <= i < |Labels(txType)| ==>
      Labels(txType)[i].bit & KnownFlags(txType) == Labels(txType)[i].bit
  {
    LabelsAreKnown(txType);
    hide HasUnknownFlags, Labels, SameFlags, KnownFlags;
    if txType == TRANSACTION_ACCOUNT_SET || txType == TRANSACTION_TRUST_SET {
      FullMasks(txType, value, other);
    } else if txType == TRANSACTION_AMM_DEPOSIT {
      AmmDepositMask(txType, value, other);
    } else if txType == TRANSACTION_AMM_WITHDRAW {
      AmmWithdrawMask(txType, value, other);
    } else if txType == TRANSACTION_NFTOKEN_MINT || txType == TRANSACTION_NFTOKEN_CREATE_OFFER {
      NftokenMasks(txType, value, other);
    } else {
      OfferMasks(txType, value, other);
    }
  }

  /** With no unknown bit, the text gives the value back, up to the canonical-signature bit. */
  lemma FlagTextInjective(txType: nat, value: bv32, other: bv32)
    requires HasFormatter(txType) && FlagText(txType, value) == FlagText(txType, other)
    requires !HasUnknownFlags(txType, value) && !HasUnknownFlags(txType, other)
    ensures value | FULLY_CANONICAL_SIG == other | FULLY_CANONICAL_SIG
  {
    var labels := Labels(txType);
    TablesAreDistinct(txType);
    SelectedItems(labels, value);
    SelectedItems(labels, other);
    JoinInjective(Selected(labels, value), Selected(labels, other));
    SelectedInjective(labels, value, other);
    MaskIsTable(txType, value, other);
  }

  /** No other value without unknown bits reads the same, but for the signature bit. */
  ghost predicate TellsFlags(txType: nat, text: string, value: bv32) {
    forall other :: !HasUnknownFlags(txType, other) && FlagText(txType, other) == text ==>
      other | FULLY_CANONICAL_SIG == value | FULLY_CANONICAL_SIG
  }

  lemma TextTellsFlags(txType: nat, value: bv32)
    requires HasFormatter(txType) && !HasUnknownFlags(txType, value)
    ensures TellsFlags(txType, FlagText(txType, value), value)
  {
    hide FlagText, HasUnknownFlags, HasFormatter;
    forall other | !HasUnknownFlags(txType, other) && FlagText(txType, other) == FlagText(txType, value)
      ensures other | FULLY_CANONICAL_SIG == value | FULLY_CANONICAL_SIG
    {
      FlagTextInjective(txType, other, value);
    }
  }

  lemma BitsAreSet(txType: nat)
    ensures forall i :: 0 <= i < |Labels(txType)| ==> Labels(txType)[i].bit != 0
  {
  }

  lemma {:induction false} NoFlagNoLabel(labels: seq<Label>)
    requires forall i :: 0 <= i < |labels| ==> labels[i].bit != 0
    ensures Selected(labels, 0) == []
  {
    if labels != [] {
      NoFlagNoLabel(labels[..|labels| - 1]);
    }
  }

  /** A value that is not hidden, and has no unknown bit, has a text. */
  lemma VisibleFlagsHaveText(txType: nat, value: bv32)
    requires HasFormatter(txType) && !HasUnknownFlags(txType, value) && value != 0 && value != FULLY_CANONICAL_SIG
    ensures FlagText(txType, value) != ""
  {
    hide Labels, KnownFlags;
    BitsAreSet(txType);
    NoFlagNoLabel(Labels(txType));
    assert FlagText(txType, 0) == "" && !HasUnknownFlags(txType, 0);
    hide FlagText, HasUnknownFlags;
    OnlySignatureBit(value);
    if FlagText(txType, value) == "" {
      FlagTextInjective(txType, value, 0);
    }
  }

  lemma OnlySignatureBit(value: bv32)
    requires value != 0 && value != FULLY_CANONICAL_SIG
    ensures value | FULLY_CANONICAL_SIG != 0 | FULLY_CANONICAL_SIG
  {
  }

  // ---------- Writing the text ----------

  const APPEND_ERROR := "[ERROR: FAILED TO APPEND ITEM]"

  /** The buffer holds `text`, then zeros up to its end. */
  ghost predicate Holding(buffer: seq<char>, text: string) {
    && |text| <= |buffer| && buffer[..|text|] == text
    && forall i :: |text| <= i < |buffer| ==> buffer[i] == '\0'
  }

  /** `strncpy` to an offset: the text, then zeros up to the end of the buffer. */
  method CopyAt(out: array<char>, offset: nat, text: string)
    requires offset + |text| <= out.Length
    modifies out
    ensures out[..offset] == old(out[..offset]) && out[offset..offset + |text|] == text
    ensures forall i :: offset + |text| <= i < out.Length ==> out[i] == '\0'
  {
    forall i | offset <= i < out.Length {
      out[i] := if i < offset + |text| then text[i - offset] else '\0';
    }
  }

  /** `append_item`: appends with a separator, or replaces everything by the error text. */
  method AppendItem(out: array<char>, offset: nat, item: string, ghost text: string) returns (next: nat)
    requires out.Length >= MAX_FIELD_LEN && offset == |text| && Holding(out[..], text)
    modifies out
    ensures var longer := text + (if text == "" then "" else ", ") + item;
      if |longer| < out.Length then Holding(out[..], longer) && next == |longer|
      else Holding(out[..], APPEND_ERROR) && next == out.Length
  {
    var at := offset;
    if at != 0 {
      if out.Length - at < 3 {
        CopyAt(out, 0, APPEND_ERROR);
        return out.Length;
      }
      out[at], out[at + 1], out[at + 2] := ',', ' ', '\0';
      at := at + 2;
    }
    if |item| >= out.Length - at {
      CopyAt(out, 0, APPEND_ERROR);
      return out.Length;
    }
    CopyAt(out, at, item);
    ghost var longer := text + (if text == "" then "" else ", ") + item;
    assert out[..|longer|] == out[..at] + out[at..at + |item|];
    return at + |item|;
  }

  lemma JoinGrows(items: seq<string>, item: string)
    requires AreItems(items)
    ensures Join(items + [item]) == Join(items) + (if Join(items) == "" then "" else ", ") + item
  {
    if items == [] {
      assert Join([] + [item]) == item;
      assert Join(items) + "" + item == item;
    } else {
      assert (items + [item])[..|items|] == items;
      JoinEnds(items);
      assert Join(items) != "";
    }
  }

  /** One `if (HAS_FLAG(...))` of a formatter. */
  method AppendFlag(dst: array<char>, offset: nat, value: bv32, flag: bv32, name: string,
                    ghost labels: seq<Label>, ghost k: nat) returns (next: nat)
    requires k < |labels| && labels[k] == Label(flag, name) && ItemLabels(labels)
    requires Holding(dst[..], Join(Selected(labels[..k], value)))
    requires offset == |Join(Selected(labels[..k], value))|
    requires dst.Length >= MAX_FIELD_LEN && offset + 2 + |name| < MAX_FIELD_LEN
    modifies dst
    ensures Holding(dst[..], Join(Selected(labels[..k + 1], value)))
    ensures next == |Join(Selected(labels[..k + 1], value))| <= offset + 2 + |name|
  {
    next := offset;
    SelectedItems(labels[..k], value);
    assert labels[..k + 1][..k] == labels[..k];
    ghost var items := Selected(labels[..k], value);
    if HasFlag(value, flag) {
      JoinGrows(items, name);
      next := AppendItem(dst, offset, name, Join(items));
    } else {
      assert items + [] == items;
    }
  }

  lemma NothingSelected(labels: seq<Label>, value: bv32)
    ensures Join(Selected(labels[..0], value)) == ""
  {
  }

  lemma TakeAll(labels: seq<Label>, count: nat)
    requires count == |labels|
    ensures labels[..count] == labels
  {
  }

  method FormatAccountSetTransactionFlags(value: bv32, dst: array<char>)
    requires dst.Length >= MAX_FIELD_LEN && Holding(dst[..], "")
    modifies dst
    ensures Holding(dst[..], Join(Selected(AccountSetLabels(), value)))
    ensures |Join(Selected(AccountSetLabels(), value))| < MAX_FIELD_LEN
  {
    ghost var labels := AccountSetLabels();
    AccountSetDistinct();
    NothingSelected(labels, value);
    hide Selected, Join, Holding, IsItem;
    var offset1 := AppendFlag(dst, 0, value, 0x0001_0000, "Require Dest Tag", labels, 0);
    var offset2 := AppendFlag(dst, offset1, value, 0x0002_0000, "Optional Dest Tag", labels, 1);
    var offset3 := AppendFlag(dst, offset2, value, 0x0004_0000, "Require Auth", labels, 2);
    var offset4 := AppendFlag(dst, offset3, value, 0x0008_0000, "Optional Auth", labels, 3);
    var offset5 := AppendFlag(dst, offset4, value, 0x0010_0000, "Disallow XRP", labels, 4);
    var offset6 := AppendFlag(dst, offset5, value, 0x0020_0000, "Allow XRP", labels, 5);
    TakeAll(labels, 6);
  }

  method FormatOfferCreateFlags(value: bv32, dst: array<char>)
    requires dst.Length >= MAX_FIELD_LEN && Holding(dst[..], "")
    modifies dst
    ensures Holding(dst[..], Join(Selected(OfferCreateLabels(), value)))
    ensures |Join(Selected(OfferCreateLabels(), value))| < MAX_FIELD_LEN
  {
    ghost var labels := OfferCreateLabels();
    OfferCreateDistinct();
    NothingSelected(labels, value);
    hide Selected, Join, Holding, IsItem;
    var offset1 := AppendFlag(dst, 0, value, 0x0001_0000, "Passive", labels, 0);
    var offset2 := AppendFlag(dst, offset1, value, 0x0002_0000, "Immediate or Cancel", labels, 1);
    var offset3 := AppendFlag(dst, offset2, value, 0x0004_0000, "Fill or Kill", labels, 2);
    var offset4 := AppendFlag(dst, offset3, value, 0x0008_0000, "Sell", labels, 3);
    TakeAll(labels, 4);
  }

  method FormatPaymentFlags(value: bv32, dst: array<char>)
    requires dst.Length >= MAX_FIELD_LEN && Holding(dst[..], "")
    modifies dst
    ensures Holding(dst[..], Join(Selected(PaymentLabels(), value)))
    ensures |Join(Selected(PaymentLabels(), value))| < MAX_FIELD_LEN
  {
    ghost var labels := PaymentLabels();
    PaymentDistinct();
    NothingSelected(labels, value);
    hide Selected, Join, Holding, IsItem;
    var offset1 := AppendFlag(dst, 0, value, 0x0001_0000, "No Direct Ripple", labels, 0);
    var offset2 := AppendFlag(dst, offset1, value, 0x0002_0000, "Partial Payment", labels, 1);
    var offset3 := AppendFlag(dst, offset2, value, 0x0004_0000, "Limit Quality", labels, 2);
    TakeAll(labels, 3);
  }

  method FormatTrustSetFlags(value: bv32, dst: array<char>)
    requires dst.Length >= MAX_FIELD_LEN && Holding(dst[..], "")
    modifies dst
    ensures Holding(dst[..], Join(Selected(TrustSetLabels(), value)))
    ensures |Join(Selected(TrustSetLabels(), value))| < MAX_FIELD_LEN
  {
    ghost var labels := TrustSetLabels();
    TrustSetDistinct();
    NothingSelected(labels, value);
    hide Selected, Join, Holding, IsItem;
    var offset1 := AppendFlag(dst, 0, value, 0x0001_0000, "Set Auth", labels, 0);
    var offset2 := AppendFlag(dst, offset1, value, 0x0002_0000, "Set No Ripple", labels, 1);
    var offset3 := AppendFlag(dst, offset2, value, 0x0004_0000, "Clear No Ripple", labels, 2);
    var offset4 := AppendFlag(dst, offset3, value, 0x0010_0000, "Set Freeze", labels, 3);
    var offset5 := AppendFlag(dst, offset4, value, 0x0020_0000, "Clear Freeze", labels, 4);
    TakeAll(labels, 5);
  }

  method FormatPaymentChannelClaimFlags(value: bv32, dst: array<char>)
    requires dst.Length >= MAX_FIELD_LEN && Holding(dst[..], "")
    modifies dst
    ensures Holding(dst[..], Join(Selected(PaymentChannelClaimLabels(), value)))
    ensures |Join(Selected(PaymentChannelClaimLabels(), value))| < MAX_FIELD_LEN
  {
    ghost var labels := PaymentChannelClaimLabels();
    PaymentChannelClaimDistinct();
    NothingSelected(labels, value);
    hide Selected, Join, Holding, IsItem;
    var offset1 := AppendFlag(dst, 0, value, 0x0001_0000, "Renew", labels, 0);
    var offset2 := AppendFlag(dst, offset1, value, 0x0002_0000, "Close", labels, 1);
    TakeAll(labels, 2);
  }

  method FormatNftokenMintFlags(value: bv32, dst: array<char>)
    requires dst.Length >= MAX_FIELD_LEN && Holding(dst[..], "")
    modifies dst
    ensures Holding(dst[..], Join(Selected(NftokenMintLabels(), value)))
    ensures |Join(Selected(NftokenMintLabels(), value))| < MAX_FIELD_LEN
  {
    ghost var labels := NftokenMintLabels();
    NftokenMintDistinct();
    NothingSelected(labels, value);
    hide Selected, Join, Holding, IsItem;
    var offset1 := AppendFlag(dst, 0, value, 0x0000_0001, "Burnable", labels, 0);
    var offset2 := AppendFlag(dst, offset1, value, 0x0000_0002, "Only XRP", labels, 1);
    var offset3 := AppendFlag(dst, offset2, value, 0x0000_0008, "Transferable", labels, 2);
    var offset4 := AppendFlag(dst, offset3, value, 0x0000_0010, "Mutable", labels, 3);
    TakeAll(labels, 4);
  }

  method FormatNftokenCreateOfferFlags(value: bv32, dst: array<char>)
    requires dst.Length >= MAX_FIELD_LEN && Holding(dst[..], "")
    modifies dst
    ensures Holding(dst[..], Join(Selected(NftokenCreateOfferLabels(), value)))
    ensures |Join(Selected(NftokenCreateOfferLabels(), value))| < MAX_FIELD_LEN
  {
    ghost var labels := NftokenCreateOfferLabels();
    NftokenCreateOfferDistinct();
    NothingSelected(labels, value);
    hide Selected, Join, Holding, IsItem;
    var offset1 := AppendFlag(dst, 0, value, 0x0000_0001, "Sell", labels, 0);
    TakeAll(labels, 1);
  }

  /** The five checks that the AMM formatters have in common. */
  method FormatAmmCommonFlags(value: bv32, dst: array<char>, ghost labels: seq<Label>) returns (offset: nat)
    requires |labels| > 5 && ItemLabels(labels)
    requires labels[0] == Label(0x0001_0000, "LP Token") && labels[1] == Label(0x0008_0000, "Single Asset")
    requires labels[2] == Label(0x0010_0000, "Two Asset") && labels[3] == Label(0x0020_0000, "One Asset LP Token")
    requires labels[4] == Label(0x0040_0000, "Limit LP Token")
    requires dst.Length >= MAX_FIELD_LEN && Holding(dst[..], "")
    modifies dst
    ensures Holding(dst[..], Join(Selected(labels[..5], value)))
    ensures offset == |Join(Selected(labels[..5], value))| <= 71
  {
    NothingSelected(labels, value);
    hide Selected, Join, Holding, IsItem;
    offset := AppendFlag(dst, 0, value, 0x0001_0000, "LP Token", labels, 0);
    offset := AppendFlag(dst, offset, value, 0x0008_0000, "Single Asset", labels, 1);
    offset := AppendFlag(dst, offset, value, 0x0010_0000, "Two Asset", labels, 2);
    offset := AppendFlag(dst, offset, value, 0x0020_0000, "One Asset LP Token", labels, 3);
    offset := AppendFlag(dst, offset, value, 0x0040_0000, "Limit LP Token", labels, 4);
  }

  method FormatAmmDepositFlags(value: bv32, dst: array<char>)
    requires dst.Length >= MAX_FIELD_LEN && Holding(dst[..], "")
    modifies dst
    ensures Holding(dst[..], Join(Selected(AmmDepositLabels(), value)))
    ensures |Join(Selected(AmmDepositLabels(), value))| < MAX_FIELD_LEN
  {
    ghost var labels := AmmDepositLabels();
    AmmDepositDistinct();
    hide Selected, Join, Holding, IsItem;
    var offset := FormatAmmCommonFlags(value, dst, labels);
    offset := AppendFlag(dst, offset, value, 0x0080_0000, "Two Asset If Empty", labels, 5);
    TakeAll(labels, 6);
  }

  method FormatAmmWithdrawFlags(value: bv32, dst: array<char>)
    requires dst.Length >= MAX_FIELD_LEN && Holding(dst[..], "")
    modifies dst
    ensures Holding(dst[..], Join(Selected(AmmWithdrawLabels(), value)))
    ensures |Join(Selected(AmmWithdrawLabels(), value))| < MAX_FIELD_LEN
  {
    ghost var labels := AmmWithdrawLabels();
    AmmWithdrawDistinct();
    hide Selected, Join, Holding, IsItem;
    var offset := FormatAmmCommonFlags(value, dst, labels);
    offset := AppendFlag(dst, offset, value, 0x0002_0000, "Withdraw All", labels, 5);
    offset := AppendFlag(dst, offset, value, 0x0004_0000, "One Asset Withdraw All", labels, 6);
    TakeAll(labels, 7);
  }

  lemma {:induction false} JoinHasNoTerminator(items: seq<string>)
    requires AreItems(items)
    ensures '\0' !in Join(items)
  {
    if |items| > 0 {
      assert IsItem(items[|items| - 1]);
      JoinHasNoTerminator(items[..|items| - 1]);
    }
  }

  lemma HeldTextIsRead(buffer: seq<char>, text: string)
    requires Holding(buffer, text) && |text| < |buffer| && '\0' !in text
    ensures TextAt(buffer, 0) == text
    ensures buffer[0] == '\0' <==> text == ""
  {
    assert buffer[0..|text|] == text;
    assert text != "" ==> buffer[0] == text[0];
    HeldIsRead(buffer, 0, text);
  }

  lemma FlagTextIsRead(txType: nat, value: bv32, buffer: seq<char>)
    requires Holding(buffer, FlagText(txType, value)) && |FlagText(txType, value)| < |buffer|
    ensures TextAt(buffer, 0) == FlagText(txType, value)
    ensures buffer[0] == '\0' <==> FlagText(txType, value) == ""
  {
    TablesAreDistinct(txType);
    SelectedItems(Labels(txType), value);
    JoinHasNoTerminator(Selected(Labels(txType), value));
    HeldTextIsRead(buffer, FlagText(txType, value));
  }

  method WriteUnsupported(dst: array<char>)
    requires dst.Length >= MAX_FIELD_LEN
    modifies dst
    ensures TextAt(dst[..], 0) == "Unsupported value"
  {
    CopyAt(dst, 0, "Unsupported value");
    HeldTextIsRead(dst[..], "Unsupported value");
  }

  /** `format_flags` for the Flags field of a type with a formatter. */
  method FormatTypeFlags(txType: nat, value: bv32, dst: array<char>)
    requires HasFormatter(txType)
    requires dst.Length >= MAX_FIELD_LEN && Holding(dst[..], "")
    modifies dst
    ensures TextAt(dst[..], 0) == if FlagText(txType, value) == "" then "Unsupported value" else FlagText(txType, value)
  {
    hide Selected, Join, Holding, TextAt, AccountSetLabels, OfferCreateLabels, PaymentLabels, TrustSetLabels,
      PaymentChannelClaimLabels, NftokenMintLabels, NftokenCreateOfferLabels, AmmDepositLabels, AmmWithdrawLabels;
    if txType == TRANSACTION_ACCOUNT_SET {
      FormatAccountSetTransactionFlags(value, dst);
    } else if txType == TRANSACTION_OFFER_CREATE {
      FormatOfferCreateFlags(value, dst);
    } else if txType == TRANSACTION_PAYMENT {
      FormatPaymentFlags(value, dst);
    } else if txType == TRANSACTION_TRUST_SET {
      FormatTrustSetFlags(value, dst);
    } else if txType == TRANSACTION_PAYMENT_CHANNEL_CLAIM {
      FormatPaymentChannelClaimFlags(value, dst);
    } else if txType == TRANSACTION_NFTOKEN_MINT {
      FormatNftokenMintFlags(value, dst);
    } else if txType == TRANSACTION_NFTOKEN_CREATE_OFFER {
      FormatNftokenCreateOfferFlags(value, dst);
    } else if txType == TRANSACTION_AMM_DEPOSIT {
      FormatAmmDepositFlags(value, dst);
    } else {
      FormatAmmWithdrawFlags(value, dst);
    }
    FlagTextIsRead(txType, value, dst[..]);
    if dst[0] == '\0' {
      WriteUnsupported(dst);
    }
  }
}
