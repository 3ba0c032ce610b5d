/** The text of the three flag fields of a transaction (src/xrp/flags.c). */
module FlagFields {
  import opened CString
  import opened Decimal
  import opened Fields
  import opened Flags
  import Numerals

  /** The flags that SetFlag and ClearFlag name, one per field; "" where there is none. */
  function AccountSetName(value: nat): string {
    if value == 1 then "Require Dest"
    else if value == 2 then "Require Auth"
    else if value == 3 then "Disallow XRP"
    else if value == 4 then "Disable Master"
    else if value == 5 then "Track Txn ID"
    else if value == 6 then "No Freeze"
    else if value == 7 then "Global Freeze"
    else if value == 8 then "Default Ripple"
    else if value == 9 then "Deposit Auth"
    else if value == 10 then "Auth NFToken Minter"
    else if value == 12 then "Disallow NFToken Offer"
    else if value == 13 then "Disallow Check"
    else if value == 14 then "Disallow PayChan"
    else if value == 15 then "Disallow Trustline"
    else if value == 16 then "Allow Clawback"
    else ""
  }

  const UNKNOWN_FLAG := "Unknown flag: "
  const NO_FLAGS := "No flags for transaction type "
  const UNSUPPORTED := "Unsupported value"

  function AccountSetText(value: nat): string {
    if AccountSetName(value) != "" then AccountSetName(value) else UNKNOWN_FLAG + UnsignedText(value)
  }

  function TypeText(txType: nat, value: bv32): string {
    if !HasFormatter(txType) then NO_FLAGS + UnsignedText(txType)
    else if FlagText(txType, value) == "" then UNSUPPORTED
    else FlagText(txType, value)
  }

  /** The text of a Flags, SetFlag or ClearFlag field. */
  function FieldText(id: nat, txType: nat, value: bv32): string {
    if txType == TRANSACTION_ACCOUNT_SET && id != UINT32_FLAGS then AccountSetText(value as nat)
    else TypeText(txType, value)
  }

  // ---------- SetFlag and ClearFlag are told apart ----------

  /** The value behind a text, read off its length and one character. */
  function NamedValue(text: string): nat {
    if |text| == 9 then 6
    else if |text| == 12 then
      if text[0] == 'T' then 5
      else if text[2] == 's' then 3
      else if text[2] == 'p' then 9
      else if text[8] == 'D' then 1
      else 2
    else if |text| == 13 then 7
    else if |text| == 14 then
      if text[0] == 'A' then 16
      else if text[2] == 'f' then 8
      else if text[4] == 'b' then 4
      else 13
    else if |text| == 16 then 14
    else if |text| == 18 then 15
    else if |text| == 19 then 10
    else 12
  }

  lemma ShortNames(value: nat)
    requires value <= 8 && AccountSetName(value) != ""
    ensures NamedValue(AccountSetName(value)) == value && AccountSetName(value)[1] != 'n'
    ensures '\0' !in AccountSetName(value) && |AccountSetName(value)| <= 22
  {
  }

  lemma LongNames(value: nat)
    requires value > 8 && AccountSetName(value) != ""
    ensures NamedValue(AccountSetName(value)) == value && AccountSetName(value)[1] != 'n'
    ensures '\0' !in AccountSetName(value) && |AccountSetName(value)| <= 22
  {
  }

  lemma NamesTell(value: nat)
    requires AccountSetName(value) != ""
    ensures NamedValue(AccountSetName(value)) == value && AccountSetName(value)[1] != 'n'
    ensures '\0' !in AccountSetName(value) && |AccountSetName(value)| <= 22
  {
    if value <= 8 {
      ShortNames(value);
    } else {
      LongNames(value);
    }
  }

  /** The text of SetFlag and ClearFlag determines the value. */
  lemma AccountSetTextTells(value: nat, other: nat)
    requires AccountSetText(value) == AccountSetText(other)
    ensures value == other
  {
    hide NamedValue, NumeralValue, UnsignedText;
    var named, named' := AccountSetName(value) != "", AccountSetName(other) != "";
    assert UNKNOWN_FLAG[1] == 'n';
    assert !named ==> AccountSetText(value)[1] == 'n' && AccountSetText(value)[14..] == UnsignedText(value);
    assert !named' ==> AccountSetText(other)[1] == 'n' && AccountSetText(other)[14..] == UnsignedText(other);
    hide AccountSetName;
    if named {
      NamesTell(value);
    }
    if named' {
      NamesTell(other);
    }
    UnsignedTextReads(value);
    UnsignedTextReads(other);
  }

  // ---------- Which flags read alike ----------

  function Masked(value: bv32, mask: bv32): bv32 { value & mask }

  /** The bits of a value that the type has labels for. */
  function KnownPart(txType: nat, value: bv32): bv32 {
    Masked(value, KnownFlags(txType))
  }

  predicate IsWithin(bit: bv32, mask: bv32) { bit & mask == bit }

  ghost predicate LabelsWithin(labels: seq<Label>, mask: bv32) {
    forall i :: 0 <= i < |labels| ==> IsWithin(labels[i].bit, mask)
  }

  lemma LabelsAreWithin(txType: nat)
    ensures LabelsWithin(Labels(txType), KnownFlags(txType))
  {
    LabelsAreKnown(txType);
    hide Labels, KnownFlags;
  }

  lemma MaskFirst(value: bv32, mask: bv32, bit: bv32)
    ensures (value & mask) & bit == value & (bit & mask)
  {
  }

  lemma SameFlag(value: bv32, other: bv32, bit: bv32)
    requires value & bit == other & bit
    ensures HasFlag(value, bit) == HasFlag(other, bit)
  {
  }

  lemma BitWithin(value: bv32, mask: bv32, bit: bv32)
    requires IsWithin(bit, mask)
    ensures HasFlag(Masked(value, mask), bit) == HasFlag(value, bit)
  {
    hide HasFlag;
    MaskFirst(value, mask, bit);
    SameFlag(value & mask, value, bit);
  }

  /** Labels look at the known bits only. */
  lemma {:induction false} KnownBitsDecide(labels: seq<Label>, value: bv32, mask: bv32)
    requires LabelsWithin(labels, mask)
    ensures Selected(labels, Masked(value, mask)) == Selected(labels, value)
  {
    hide HasFlag, Masked, IsWithin;
    if labels != [] {
      BitWithin(value, mask, labels[|labels| - 1].bit);
      KnownBitsDecide(labels[..|labels| - 1], value, mask);
    }
  }

  lemma TextOfKnownPart(txType: nat, value: bv32)
    ensures FlagText(txType, KnownPart(txType, value)) == FlagText(txType, value)
  {
    hide Labels, KnownFlags, Join, Selected, Masked, LabelsWithin;
    LabelsAreWithin(txType);
    KnownBitsDecide(Labels(txType), value, KnownFlags(txType));
  }

  lemma NothingUnknown(value: bv32, mask: bv32)
    ensures Masked(value, mask) & !(FULLY_CANONICAL_SIG | mask) == 0
  {
  }

  lemma KnownPartIsKnown(txType: nat, value: bv32)
    ensures !HasUnknownFlags(txType, KnownPart(txType, value))
  {
    hide KnownFlags, Masked;
    NothingUnknown(value, KnownFlags(txType));
  }

  predicate SameButSignature(value: bv32, other: bv32) {
    value | FULLY_CANONICAL_SIG == other | FULLY_CANONICAL_SIG
  }

  lemma WithoutSignature(value: bv32, other: bv32, mask: bv32)
    requires !HasFlag(mask, FULLY_CANONICAL_SIG) && SameButSignature(Masked(value, mask), Masked(other, mask))
    ensures Masked(value, mask) == Masked(other, mask)
  {
    BackWithoutBit(value, mask);
    BackWithoutBit(other, mask);
  }

  lemma BackWithoutBit(value: bv32, mask: bv32)
    requires !HasFlag(mask, FULLY_CANONICAL_SIG)
    ensures ((value & mask) | FULLY_CANONICAL_SIG) & mask == value & mask
  {
  }

  lemma SignatureBitIsUnknown(txType: nat)
    ensures !HasFlag(KnownFlags(txType), FULLY_CANONICAL_SIG)
  {
  }

  lemma SameTextSameFlags(txType: nat, value: bv32, other: bv32)
    requires HasFormatter(txType) && FlagText(txType, value) == FlagText(txType, other)
    requires !HasUnknownFlags(txType, value) && !HasUnknownFlags(txType, other)
    ensures SameButSignature(value, other)
  {
    hide HasUnknownFlags, FlagText, HasFormatter;
    FlagTextInjective(txType, value, other);
  }

  /** The labels of two values are the same exactly if they agree on the known bits. */
  lemma FlagTextsAlike(txType: nat, value: bv32, other: bv32)
    requires HasFormatter(txType)
    ensures FlagText(txType, value) == FlagText(txType, other)
      <==> KnownPart(txType, value) == KnownPart(txType, other)
  {
    TextOfKnownPart(txType, value);
    TextOfKnownPart(txType, other);
    KnownPartIsKnown(txType, value);
    KnownPartIsKnown(txType, other);
    SignatureBitIsUnknown(txType);
    hide FlagText, HasUnknownFlags, HasFormatter, KnownFlags, Masked, SameButSignature, HasFlag;
    if FlagText(txType, value) == FlagText(txType, other) {
      SameTextSameFlags(txType, KnownPart(txType, value), KnownPart(txType, other));
      WithoutSignature(value, other, KnownFlags(txType));
    }
  }

  lemma NoLabelIsUnsupported(txType: nat)
    ensures forall i :: 0 <= i < |Labels(txType)| ==> |Labels(txType)[i].text| != 17 || Labels(txType)[i].text[0] != 'U'
  {
  }

  lemma UnsupportedIsAnItem()
    ensures IsItem(UNSUPPORTED) && AreItems([UNSUPPORTED]) && Join([UNSUPPORTED]) == UNSUPPORTED
    ensures UNSUPPORTED[0] == 'U' && |UNSUPPORTED| == 17
  {
  }

  /** No list of labels reads like the text for a value without any. */
  lemma NoLabelsReadUnsupported(txType: nat, value: bv32)
    ensures FlagText(txType, value) != UNSUPPORTED
  {
    TablesAreDistinct(txType);
    NoLabelIsUnsupported(txType);
    UnsupportedIsAnItem();
    hide Labels, Selected, Join, IsItem;
    var labels := Labels(txType);
    SelectedItems(labels, value);
    assert UNSUPPORTED !in Selected(labels, value) && UNSUPPORTED in [UNSUPPORTED];
    if FlagText(txType, value) == UNSUPPORTED {
      JoinInjective(Selected(labels, value), [UNSUPPORTED]);
    }
  }

  lemma TypeTextsAlike(txType: nat, value: bv32, other: bv32)
    ensures TypeText(txType, value) == TypeText(txType, other)
      <==> KnownPart(txType, value) == KnownPart(txType, other)
  {
    if HasFormatter(txType) {
      FlagTextsAlike(txType, value, other);
      NoLabelsReadUnsupported(txType, value);
      NoLabelsReadUnsupported(txType, other);
      hide FlagText, KnownPart, HasFormatter;
    } else {
      NoKnownPart(txType, value);
      NoKnownPart(txType, other);
      hide KnownPart;
    }
  }

  lemma NoKnownPart(txType: nat, value: bv32)
    requires !HasFormatter(txType)
    ensures KnownPart(txType, value) == 0
  {
    assert KnownFlags(txType) == 0;
  }

  lemma AccountSetTextsAlike(value: bv32, other: bv32)
    ensures AccountSetText(value as nat) == AccountSetText(other as nat) <==> value == other
  {
    hide AccountSetText;
    if AccountSetText(value as nat) == AccountSetText(other as nat) {
      AccountSetTextTells(value as nat, other as nat);
      assert (value as nat) as bv32 == value && (other as nat) as bv32 == other;
    }
  }

  /** What a flag field of any type of transaction and any field code tells of its
      value: the whole of it for SetFlag and ClearFlag of AccountSet, otherwise only
      the bits that the type has labels for. */
  lemma FieldTextsAlike(id: nat, txType: nat, value: bv32, other: bv32)
    ensures FieldText(id, txType, value) == FieldText(id, txType, other)
      <==> if txType == TRANSACTION_ACCOUNT_SET && id != UINT32_FLAGS then value == other
           else KnownPart(txType, value) == KnownPart(txType, other)
  {
    hide TypeText, AccountSetText, KnownPart;
    TypeTextsAlike(txType, value, other);
    AccountSetTextsAlike(value, other);
  }

  // ---------- Writing it ----------

  lemma UnsignedTextIsShort(n: nat)
    requires n < Numerals.TWO_32
    ensures |UnsignedText(n)| <= 10 && '\0' !in UnsignedText(n)
  {
    assert Numerals.Pow(10, 5) == 100000;
    Numerals.PowAdd(10, 5, 5);
    NumeralLength(n, 10);
    NumeralIsText(n);
    hide Numeral, Numerals.Pow;
  }

  /** `format_account_set_flags` of the fields SetFlag and ClearFlag */
  method FormatAccountSetField(value: bv32, dst: array<char>)
    requires dst.Length >= MAX_FIELD_LEN
    modifies dst
    ensures TextAt(dst[..], 0) == AccountSetText(value as nat)
  {
    hide NamedValue, UnsignedText, TextAt;
    var name := AccountSetName(value as nat);
    if name != "" {
      NamesTell(value as nat);
      PrintText(dst, name);
    } else {
      UnsignedTextIsShort(value as nat);
      PrintText(dst, UNKNOWN_FLAG + UnsignedText(value as nat));
    }
  }

  /** `format_flags`; the target has been zeroed before. */
  method FormatFlags(id: nat, txType: nat, value: bv32, dst: array<char>)
    requires txType < 0x1_0000 && dst.Length >= MAX_FIELD_LEN && Holding(dst[..], "")
    modifies dst
    ensures TextAt(dst[..], 0) == FieldText(id, txType, value)
  {
    hide FlagText, TextAt, UnsignedText, AccountSetName;
    if txType == TRANSACTION_ACCOUNT_SET && id != UINT32_FLAGS {
      FormatAccountSetField(value, dst);
    } else if HasFormatter(txType) {
      FormatTypeFlags(txType, value, dst);
    } else {
      UnsignedTextIsShort(txType);
      PrintText(dst, NO_FLAGS + UnsignedText(txType));
    }
  }
}
