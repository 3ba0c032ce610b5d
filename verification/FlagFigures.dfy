/** Which text each single flag reads, in figures and words (src/xrp/flags.c). */
module FlagFigures {
  import opened Flags
  import opened FlagFields
  import opened Fields
  import Decimal

  /** No label shares a bit with another one. */
  ghost predicate BitsApart(labels: seq<Label>) {
    forall i, j :: 0 <= i < |labels| && 0 <= j < |labels| ==> (HasFlag(labels[i].bit, labels[j].bit) <==> i == j)
  }

  lemma {:induction false} OnlyOwnLabel(labels: seq<Label>, value: bv32, i: nat)
    requires i < |labels| && forall j :: 0 <= j < |labels| ==> (HasFlag(value, labels[j].bit) <==> i == j)
    ensures Selected(labels, value) == [labels[i].text]
  {
    hide HasFlag;
    var last := |labels| - 1;
    if i < last {
      OnlyOwnLabel(labels[..last], value, i);
    } else {
      NoLabel(labels[..last], value);
    }
  }

  lemma {:induction false} NoLabel(labels: seq<Label>, value: bv32)
    requires forall j :: 0 <= j < |labels| ==> !HasFlag(value, labels[j].bit)
    ensures Selected(labels, value) == []
  {
    hide HasFlag;
    if labels != [] {
      NoLabel(labels[..|labels| - 1], value);
    }
  }

  /** A single bit reads its own label and nothing else. */
  lemma OneBitReads(txType: nat, i: nat)
    requires BitsApart(Labels(txType)) && i < |Labels(txType)|
    ensures FlagText(txType, Labels(txType)[i].bit) == Labels(txType)[i].text
  {
    hide Labels, HasFlag, Selected;
    OnlyOwnLabel(Labels(txType), Labels(txType)[i].bit, i);
  }

  lemma AccountSetApart()
    ensures BitsApart(AccountSetLabels())
  {
  }

  lemma OfferCreateApart()
    ensures BitsApart(OfferCreateLabels())
  {
  }

  lemma PaymentApart()
    ensures BitsApart(PaymentLabels())
  {
  }

  lemma TrustSetApart()
    ensures BitsApart(TrustSetLabels())
  {
  }

  lemma PaymentChannelClaimApart()
    ensures BitsApart(PaymentChannelClaimLabels())
  {
  }

  lemma NftokenMintApart()
    ensures BitsApart(NftokenMintLabels())
  {
  }

  lemma NftokenCreateOfferApart()
    ensures BitsApart(NftokenCreateOfferLabels())
  {
  }

  lemma AmmDepositApart()
    ensures BitsApart(AmmDepositLabels())
  {
  }

  lemma AmmWithdrawApart()
    ensures BitsApart(AmmWithdrawLabels())
  {
  }

  lemma AccountSetReads()
    ensures FlagText(3, 0x0001_0000) == "Require Dest Tag"
    ensures FlagText(3, 0x0002_0000) == "Optional Dest Tag"
    ensures FlagText(3, 0x0004_0000) == "Require Auth"
    ensures FlagText(3, 0x0008_0000) == "Optional Auth"
    ensures FlagText(3, 0x0010_0000) == "Disallow XRP"
    ensures FlagText(3, 0x0020_0000) == "Allow XRP"
  {
    AccountSetApart();
    var labels := AccountSetLabels();
    assert labels[0].bit == 0x0001_0000 && labels[0].text == "Require Dest Tag";
    assert labels[1].bit == 0x0002_0000 && labels[1].text == "Optional Dest Tag";
    assert labels[2].bit == 0x0004_0000 && labels[2].text == "Require Auth";
    assert labels[3].bit == 0x0008_0000 && labels[3].text == "Optional Auth";
    assert labels[4].bit == 0x0010_0000 && labels[4].text == "Disallow XRP";
    assert labels[5].bit == 0x0020_0000 && labels[5].text == "Allow XRP";
    assert Labels(3) == labels;
    hide Labels, AccountSetLabels, BitsApart, FlagText, HasFlag;
    OneBitReads(3, 0);
    OneBitReads(3, 1);
    OneBitReads(3, 2);
    OneBitReads(3, 3);
    OneBitReads(3, 4);
    OneBitReads(3, 5);
  }

  lemma OfferCreateReads()
    ensures FlagText(7, 0x0001_0000) == "Passive"
    ensures FlagText(7, 0x0002_0000) == "Immediate or Cancel"
    ensures FlagText(7, 0x0004_0000) == "Fill or Kill"
    ensures FlagText(7, 0x0008_0000) == "Sell"
  {
    OfferCreateApart();
    var labels := OfferCreateLabels();
    assert labels[0].bit == 0x0001_0000 && labels[0].text == "Passive";
    assert labels[1].bit == 0x0002_0000 && labels[1].text == "Immediate or Cancel";
    assert labels[2].bit == 0x0004_0000 && labels[2].text == "Fill or Kill";
    assert labels[3].bit == 0x0008_0000 && labels[3].text == "Sell";
    assert Labels(7) == labels;
    hide Labels, OfferCreateLabels, BitsApart, FlagText, HasFlag;
    OneBitReads(7, 0);
    OneBitReads(7, 1);
    OneBitReads(7, 2);
    OneBitReads(7, 3);
  }

  lemma PaymentReads()
    ensures FlagText(0, 0x0001_0000) == "No Direct Ripple"
    ensures FlagText(0, 0x0002_0000) == "Partial Payment"
    ensures FlagText(0, 0x0004_0000) == "Limit Quality"
  {
    PaymentApart();
    var labels := PaymentLabels();
    assert labels[0].bit == 0x0001_0000 && labels[0].text == "No Direct Ripple";
    assert labels[1].bit == 0x0002_0000 && labels[1].text == "Partial Payment";
    assert labels[2].bit == 0x0004_0000 && labels[2].text == "Limit Quality";
    assert Labels(0) == labels;
    hide Labels, PaymentLabels, BitsApart, FlagText, HasFlag;
    OneBitReads(0, 0);
    OneBitReads(0, 1);
    OneBitReads(0, 2);
  }

  lemma TrustSetReads()
    ensures FlagText(20, 0x0001_0000) == "Set Auth"
    ensures FlagText(20, 0x0002_0000) == "Set No Ripple"
    ensures FlagText(20, 0x0004_0000) == "Clear No Ripple"
    ensures FlagText(20, 0x0010_0000) == "Set Freeze"
    ensures FlagText(20, 0x0020_0000) == "Clear Freeze"
  {
    TrustSetApart();
    var labels := TrustSetLabels();
    assert labels[0].bit == 0x0001_0000 && labels[0].text == "Set Auth";
    assert labels[1].bit == 0x0002_0000 && labels[1].text == "Set No Ripple";
    assert labels[2].bit == 0x0004_0000 && labels[2].text == "Clear No Ripple";
    assert labels[3].bit == 0x0010_0000 && labels[3].text == "Set Freeze";
    assert labels[4].bit == 0x0020_0000 && labels[4].text == "Clear Freeze";
    assert Labels(20) == labels;
    hide Labels, TrustSetLabels, BitsApart, FlagText, HasFlag;
    OneBitReads(20, 0);
    OneBitReads(20, 1);
    OneBitReads(20, 2);
    OneBitReads(20, 3);
    OneBitReads(20, 4);
  }

  lemma PaymentChannelClaimReads()
    ensures FlagText(15, 0x0001_0000) == "Renew"
    ensures FlagText(15, 0x0002_0000) == "Close"
  {
    PaymentChannelClaimApart();
    var labels := PaymentChannelClaimLabels();
    assert labels[0].bit == 0x0001_0000 && labels[0].text == "Renew";
    assert labels[1].bit == 0x0002_0000 && labels[1].text == "Close";
    assert Labels(15) == labels;
    hide Labels, PaymentChannelClaimLabels, BitsApart, FlagText, HasFlag;
    OneBitReads(15, 0);
    OneBitReads(15, 1);
  }

  lemma NftokenMintReads()
    ensures FlagText(25, 0x0000_0001) == "Burnable"
    ensures FlagText(25, 0x0000_0002) == "Only XRP"
    ensures FlagText(25, 0x0000_0008) == "Transferable"
    ensures FlagText(25, 0x0000_0010) == "Mutable"
  {
    NftokenMintApart();
    var labels := NftokenMintLabels();
    assert labels[0].bit == 0x0000_0001 && labels[0].text == "Burnable";
    assert labels[1].bit == 0x0000_0002 && labels[1].text == "Only XRP";
    assert labels[2].bit == 0x0000_0008 && labels[2].text == "Transferable";
    assert labels[3].bit == 0x0000_0010 && labels[3].text == "Mutable";
    assert Labels(25) == labels;
    hide Labels, NftokenMintLabels, BitsApart, FlagText, HasFlag;
    OneBitReads(25, 0);
    OneBitReads(25, 1);
    OneBitReads(25, 2);
    OneBitReads(25, 3);
  }

  lemma NftokenCreateOfferReads()
    ensures FlagText(27, 0x0000_0001) == "Sell"
  {
    NftokenCreateOfferApart();
    var labels := NftokenCreateOfferLabels();
    assert labels[0].bit == 0x0000_0001 && labels[0].text == "Sell";
    assert Labels(27) == labels;
    hide Labels, NftokenCreateOfferLabels, BitsApart, FlagText, HasFlag;
    OneBitReads(27, 0);
  }

  lemma AmmDepositReads()
    ensures FlagText(36, 0x0001_0000) == "LP Token"
    ensures FlagText(36, 0x0008_0000) == "Single Asset"
    ensures FlagText(36, 0x0010_0000) == "Two Asset"
    ensures FlagText(36, 0x0020_0000) == "One Asset LP Token"
    ensures FlagText(36, 0x0040_0000) == "Limit LP Token"
    ensures FlagText(36, 0x0080_0000) == "Two Asset If Empty"
  {
    AmmDepositApart();
    var labels := AmmDepositLabels();
    assert labels[0].bit == 0x0001_0000 && labels[0].text == "LP Token";
    assert labels[1].bit == 0x0008_0000 && labels[1].text == "Single Asset";
    assert labels[2].bit == 0x0010_0000 && labels[2].text == "Two Asset";
    assert labels[3].bit == 0x0020_0000 && labels[3].text == "One Asset LP Token";
    assert labels[4].bit == 0x0040_0000 && labels[4].text == "Limit LP Token";
    assert labels[5].bit == 0x0080_0000 && labels[5].text == "Two Asset If Empty";
    assert Labels(36) == labels;
    hide Labels, AmmDepositLabels, BitsApart, FlagText, HasFlag;
    OneBitReads(36, 0);
    OneBitReads(36, 1);
    OneBitReads(36, 2);
    OneBitReads(36, 3);
    OneBitReads(36, 4);
    OneBitReads(36, 5);
  }

  lemma AmmWithdrawReads()
    ensures FlagText(37, 0x0001_0000) == "LP Token"
    ensures FlagText(37, 0x0002_0000) == "Withdraw All"
    ensures FlagText(37, 0x0004_0000) == "One Asset Withdraw All"
    ensures FlagText(37, 0x0008_0000) == "Single Asset"
    ensures FlagText(37, 0x0010_0000) == "Two Asset"
    ensures FlagText(37, 0x0020_0000) == "One Asset LP Token"
    ensures FlagText(37, 0x0040_0000) == "Limit LP Token"
  {
    AmmWithdrawApart();
    var labels := AmmWithdrawLabels();
    assert labels[0].bit == 0x0001_0000 && labels[0].text == "LP Token";
    assert labels[5].bit == 0x0002_0000 && labels[5].text == "Withdraw All";
    assert labels[6].bit == 0x0004_0000 && labels[6].text == "One Asset Withdraw All";
    assert labels[1].bit == 0x0008_0000 && labels[1].text == "Single Asset";
    assert labels[2].bit == 0x0010_0000 && labels[2].text == "Two Asset";
    assert labels[3].bit == 0x0020_0000 && labels[3].text == "One Asset LP Token";
    assert labels[4].bit == 0x0040_0000 && labels[4].text == "Limit LP Token";
    assert Labels(37) == labels;
    hide Labels, AmmWithdrawLabels, BitsApart, FlagText, HasFlag;
    OneBitReads(37, 0);
    OneBitReads(37, 5);
    OneBitReads(37, 6);
    OneBitReads(37, 1);
    OneBitReads(37, 2);
    OneBitReads(37, 3);
    OneBitReads(37, 4);
  }

  /** The names SetFlag and ClearFlag of AccountSet read; every other number reads as such. */
  lemma AccountSetNamesRead(value: nat)
    ensures AccountSetText(1) == "Require Dest"
    ensures AccountSetText(2) == "Require Auth"
    ensures AccountSetText(3) == "Disallow XRP"
    ensures AccountSetText(4) == "Disable Master"
    ensures AccountSetText(5) == "Track Txn ID"
    ensures AccountSetText(6) == "No Freeze"
    ensures AccountSetText(7) == "Global Freeze"
    ensures AccountSetText(8) == "Default Ripple"
    ensures AccountSetText(9) == "Deposit Auth"
    ensures AccountSetText(10) == "Auth NFToken Minter"
    ensures AccountSetText(12) == "Disallow NFToken Offer"
    ensures AccountSetText(13) == "Disallow Check"
    ensures AccountSetText(14) == "Disallow PayChan"
    ensures AccountSetText(15) == "Disallow Trustline"
    ensures AccountSetText(16) == "Allow Clawback"
    ensures value == 0 || value == 11 || value > 16 ==>
      AccountSetText(value) == "Unknown flag: " + Decimal.UnsignedText(value)
  {
    hide Decimal.UnsignedText;
  }

  lemma AccountSetFieldReads(id: nat, value: bv32)
    requires id != 2
    ensures FieldText(id, 3, value) == AccountSetText(value as nat)
  {
    hide AccountSetText, TypeText;
  }

  lemma FirstTwoLabels(labels: seq<Label>, value: bv32)
    requires |labels| == 3 && HasFlag(value, labels[0].bit) && HasFlag(value, labels[1].bit)
    requires !HasFlag(value, labels[2].bit)
    ensures Selected(labels, value) == [labels[0].text, labels[1].text]
  {
    hide HasFlag;
    var two, one := labels[..2], labels[..2][..1];
    assert one == [labels[0]] && two[1] == labels[1] && one[..0] == [];
    assert Selected(one, value) == [labels[0].text];
    assert Selected(two, value) == [labels[0].text, labels[1].text];
  }

  lemma JoinTwo(first: string, second: string)
    ensures Join([first, second]) == first + ", " + second
  {
    assert [first, second][..1] == [first];
  }

  lemma PaymentBits()
    ensures |PaymentLabels()| == 3
    ensures HasFlag(0x0003_0000, PaymentLabels()[0].bit) && HasFlag(0x0003_0000, PaymentLabels()[1].bit)
    ensures !HasFlag(0x0003_0000, PaymentLabels()[2].bit)
    ensures forall j :: 0 <= j < 3 ==> !HasFlag(0x0800_0000, PaymentLabels()[j].bit)
    ensures PaymentLabels()[0].text == "No Direct Ripple" && PaymentLabels()[1].text == "Partial Payment"
  {
  }

  /** Labels are joined by a comma and a space, in the order of the table. */
  lemma LabelsAreJoined()
    ensures FlagText(0, 0x0003_0000) == "No Direct Ripple" + ", " + "Partial Payment"
  {
    PaymentBits();
    assert Labels(0) == PaymentLabels();
    hide HasFlag, PaymentLabels, Labels;
    FirstTwoLabels(PaymentLabels(), 0x0003_0000);
    JoinTwo("No Direct Ripple", "Partial Payment");
  }

  /** Without a label, and without a table, the text says so. */
  lemma FallbackTexts(value: bv32)
    ensures TypeText(0, 0x0800_0000) == "Unsupported value"
    ensures TypeText(1, value) == "No flags for transaction type " + Decimal.UnsignedText(1)
  {
    PaymentBits();
    assert Labels(0) == PaymentLabels();
    hide HasFlag, PaymentLabels, Labels, Decimal.UnsignedText;
    NoLabel(PaymentLabels(), 0x0800_0000);
  }
}
