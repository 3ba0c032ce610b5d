/** Classification of the 20-byte currency code (src/xrp/amount.c). */
module Currency {
  import opened Fields

  const TICKER_START: nat := 12
  const TICKER_END: nat := 14

  predicate AllZeros(bytes: seq<byte>) {
    forall i :: 0 <= i < |bytes| ==> bytes[i] == 0
  }

  predicate IsTickerChar(c: byte) {
    || 'A' as int <= c <= 'Z' as int || 'a' as int <= c <= 'z' as int || '0' as int <= c <= '9' as int
    || c as char in {'?', '!', '@', '#', '$', '%', '^', '&', '*', '<', '>', '(', ')', '{', '}', '[', ']', '|'}
  }

  /** Everything but the three ticker bytes is zero. */
  predicate StandardShape(code: seq<byte>)
    requires |code| == CURRENCY_SIZE
  {
    forall i :: 0 <= i < CURRENCY_SIZE && !(TICKER_START <= i <= TICKER_END) ==> code[i] == 0
  }

  predicate TickerIsXrp(code: seq<byte>)
    requires |code| == CURRENCY_SIZE
  {
    code[12] == 'X' as int && code[13] == 'R' as int && code[14] == 'P' as int
  }

  predicate IsStandard(code: seq<byte>)
    requires |code| == CURRENCY_SIZE
  {
    && StandardShape(code) && !TickerIsXrp(code)
    && forall i :: TICKER_START <= i <= TICKER_END ==> IsTickerChar(code[i])
  }

  /** `is_valid_currency`: only the reserved ticker in standard shape is refused. */
  predicate IsValid(code: seq<byte>)
    requires |code| == CURRENCY_SIZE
  {
    !(StandardShape(code) && TickerIsXrp(code))
  }

  predicate IsNonStandard(code: seq<byte>)
    requires |code| == CURRENCY_SIZE
  {
    !IsStandard(code) && !AllZeros(code)
  }

  /** Digits and letters, and ?!@#$%^&*<>(){}[]| by their codes. */
  lemma TickerCharsInFigures(c: byte)
    ensures IsTickerChar(c) <==>
      48 <= c <= 57 || 65 <= c <= 90 || 97 <= c <= 122
      || c in {33, 35, 36, 37, 38, 40, 41, 42, 60, 62, 63, 64, 91, 93, 94, 123, 124, 125}
  {
  }

  /** A standard code holds three of these characters in bytes 12 to 14, but not XRP,
      and zeros around them. */
  lemma StandardInFigures(code: seq<byte>)
    requires |code| == 20
    ensures IsStandard(code) <==>
      (forall i :: 0 <= i < 12 ==> code[i] == 0) && (forall i :: 15 <= i < 20 ==> code[i] == 0)
      && (forall i :: 12 <= i < 15 ==> IsTickerChar(code[i]))
      && !(code[12] == 88 && code[13] == 82 && code[14] == 80)
  {
    hide IsTickerChar;
  }

  /** What is refused: zeros but for XRP in bytes 12 to 14.  What has a text of its own:
      what is neither standard nor all zero. */
  lemma ValidInFigures(code: seq<byte>)
    requires |code| == 20
    ensures IsValid(code) <==>
      !((forall i :: 0 <= i < 12 ==> code[i] == 0) && (forall i :: 15 <= i < 20 ==> code[i] == 0)
        && code[12] == 88 && code[13] == 82 && code[14] == 80)
    ensures IsNonStandard(code) <==> !IsStandard(code) && exists i :: 0 <= i < 20 && code[i] != 0
  {
    hide IsStandard;
  }

  method CheckAllZeros(data: seq<byte>) returns (zeros: bool)
    ensures zeros == AllZeros(data)
  {
    for i := 0 to |data|
      invariant forall k :: 0 <= k < i ==> data[k] == 0
    {
      if data[i] != 0 {
        return false;
      }
    }
    return true;
  }

  /** `is_standard_currency_code` */
  method CheckStandard(code: seq<byte>) returns (standard: bool)
    requires |code| == CURRENCY_SIZE
    ensures standard == IsStandard(code)
  {
    for i := 0 to CURRENCY_SIZE
      invariant forall k :: 0 <= k < i ==>
        if TICKER_START <= k <= TICKER_END then IsTickerChar(code[k]) else code[k] == 0
    {
      if i >= TICKER_START && i <= TICKER_END {
        if !IsTickerChar(code[i]) {
          return false;
        }
      } else if code[i] != 0 {
        return false;
      }
    }
    return !TickerIsXrp(code);
  }

  /** `is_valid_currency` */
  method CheckValid(code: seq<byte>) returns (valid: bool)
    requires |code| == CURRENCY_SIZE
    ensures valid == IsValid(code)
  {
    var zeros := CheckAllZeros(code);
    if zeros {
      return true;
    }
    var standardStructure := true;
    for i := 0 to CURRENCY_SIZE
      invariant standardStructure
      invariant forall k :: 0 <= k < i && !(TICKER_START <= k <= TICKER_END) ==> code[k] == 0
    {
      if i >= TICKER_START && i <= TICKER_END {
        continue;
      }
      if code[i] != 0 {
        standardStructure := false;
        break;
      }
    }
    return !(standardStructure && TickerIsXrp(code));
  }

  /** `has_non_standard_currency_internal` */
  method CheckNonStandard(code: seq<byte>) returns (nonStandard: bool)
    requires |code| == CURRENCY_SIZE
    ensures nonStandard == IsNonStandard(code)
  {
    var standard := CheckStandard(code);
    var zeros := CheckAllZeros(code);
    return !standard && !zeros;
  }

  // ---------- The text ----------

  function TickerText(code: seq<byte>): string
    requires |code| == CURRENCY_SIZE
  {
    [code[12] as char, code[13] as char, code[14] as char]
  }

  /** `format_standard_currency`; a nonstandard code has a row of its own. */
  function StandardText(code: seq<byte>): string
    requires |code| == CURRENCY_SIZE
  {
    if IsNonStandard(code) then "" else if AllZeros(code) then "XRP" else TickerText(code)
  }

  /** The text next to an amount: XRP for zeros, nothing for a code that has a row of
      its own, and else the three characters in the middle. */
  lemma StandardTextReads(code: seq<byte>)
    requires |code| == 20
    ensures (forall i :: 0 <= i < 20 ==> code[i] == 0) ==> StandardText(code) == "XRP"
    ensures IsStandard(code) ==> StandardText(code) == [code[12] as char, code[13] as char, code[14] as char]
    ensures !IsStandard(code) && (exists i :: 0 <= i < 20 && code[i] != 0) ==> StandardText(code) == ""
  {
    TickerCharsInFigures(code[12]);
    hide IsTickerChar;
  }

  /** Only the all-zero code of the native token reads "XRP"; standard codes are
      told apart by their text. */
  lemma StandardTextIsHonest(code: seq<byte>, other: seq<byte>)
    requires |code| == |other| == CURRENCY_SIZE
    ensures StandardText(code) == "XRP" <==> AllZeros(code)
    ensures StandardText(code) == StandardText(other) != "" ==> code == other
    ensures |StandardText(code)| in {0, 3} && '\0' !in StandardText(code)
  {
    var text := StandardText(code);
    if IsStandard(code) {
      assert IsTickerChar(code[12]) && IsTickerChar(code[13]) && IsTickerChar(code[14]);
      assert text == TickerText(code);
      assert text[0] == code[12] as char && text[1] == code[13] as char && text[2] == code[14] as char;
    }
    if IsStandard(other) && IsStandard(code) && text == StandardText(other) {
      assert IsTickerChar(other[12]);
      assert TickerText(other)[0] == text[0] && TickerText(other)[1] == text[1] && TickerText(other)[2] == text[2];
      forall i | 0 <= i < CURRENCY_SIZE ensures code[i] == other[i] {
        assert i == 12 || i == 13 || i == 14 || (code[i] == 0 && other[i] == 0);
      }
    }
  }
}
