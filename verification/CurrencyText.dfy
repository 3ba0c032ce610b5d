/** The text of a currency row (src/xrp/amount.c, src/xrp/ascii_strings.c,
    src/xrp/readers.c), and how far it tells the code. */
module CurrencyText {
  import opened CString
  import opened Currency
  import opened Fields
  import Numerals

  // ---------- Printable codes ----------

  predicate IsPrintable(c: byte) { 32 <= c <= 126 }

  function FirstZero(data: seq<byte>): (n: nat)
    ensures n <= |data| && (n < |data| ==> data[n] == 0) && forall i :: 0 <= i < n ==> data[i] != 0
  {
    if data == [] || data[0] == 0 then 0 else 1 + FirstZero(data[1..])
  }

  /** Printable characters, and zeros behind them if a suffix is allowed. */
  predicate IsPurelyAscii(data: seq<byte>, allowSuffix: bool) {
    var n := FirstZero(data);
    && (data != [] ==> n > 0) && (allowSuffix || n == |data|)
    && (forall i :: 0 <= i < n ==> IsPrintable(data[i]))
    && (forall i :: n <= i < |data| ==> data[i] == 0)
  }

  /** `is_purely_ascii` */
  method CheckPurelyAscii(data: seq<byte>, allowSuffix: bool) returns (ascii: bool)
    ensures ascii == IsPurelyAscii(data, allowSuffix)
  {
    var trackingSuffix := false;
    ghost var n := FirstZero(data);
    for i := 0 to |data|
      invariant trackingSuffix <==> n < i
      invariant i > 0 ==> n > 0
      invariant trackingSuffix ==> allowSuffix
      invariant forall k :: 0 <= k < i && k < n ==> IsPrintable(data[k])
      invariant forall k :: n <= k < i ==> data[k] == 0
    {
      if trackingSuffix && data[i] != 0 {
        return false;
      }
      if data[i] == 0 && i > 0 && allowSuffix {
        trackingSuffix := true;
        continue;
      }
      if data[i] < 32 || data[i] > 126 {
        return false;
      }
    }
    return true;
  }

  function AsText(bytes: seq<byte>): (text: string)
    ensures |text| == |bytes|
  {
    seq(|bytes|, i requires 0 <= i < |bytes| => bytes[i] as char)
  }

  predicate HasPartAt(text: string, part: string, i: int) {
    0 <= i <= |text| - |part| && text[i..i + |part|] == part
  }

  /** `strstr` */
  predicate Contains(text: string, part: string) {
    exists i :: 0 <= i <= |text| && HasPartAt(text, part, i)
  }

  // ---------- Hexadecimal ----------

  function HexDigit(n: nat): char
    requires n < 16
  {
    if n >= 10 then ('a' as int + (n - 10)) as char else ('0' as int + n) as char
  }

  function HexText(bytes: seq<byte>): (text: string)
    ensures |text| == 2 * |bytes|
  {
    if bytes == [] then ""
    else var last := bytes[|bytes| - 1];
      HexText(bytes[..|bytes| - 1]) + [HexDigit(last / 16), HexDigit(last % 16)]
  }

  lemma HexDigitTells(n: nat, m: nat)
    requires n < 16 && m < 16 && HexDigit(n) == HexDigit(m)
    ensures n == m
  {
  }

  lemma {:induction false} HexTextTells(bytes: seq<byte>, other: seq<byte>)
    requires HexText(bytes) == HexText(other)
    ensures bytes == other
  {
    assert |bytes| == |other|;
    if bytes != [] {
      var j := |bytes| - 1;
      var text := HexText(bytes);
      assert text[..2 * j] == HexText(bytes[..j]) && text[..2 * j] == HexText(other[..j]);
      HexTextTells(bytes[..j], other[..j]);
      HexDigitTells(bytes[j] / 16, other[j] / 16);
      HexDigitTells(bytes[j] % 16, other[j] % 16);
      assert bytes == bytes[..j] + [bytes[j]] && other == other[..j] + [other[j]];
    }
  }

  function HexValueOf(c: char): nat {
    if 'a' <= c <= 'f' then c as nat - 'a' as nat + 10 else if '0' <= c <= '9' then c as nat - '0' as nat else 16
  }

  function HexDigitsOf(text: string): (digits: seq<nat>)
    ensures |digits| == |text|
  {
    seq(|text|, i requires 0 <= i < |text| => HexValueOf(text[i]))
  }

  lemma HexDigitReads(n: nat)
    requires n < 16
    ensures HexValueOf(HexDigit(n)) == n
  {
  }

  /** Read in base 16, the text has the value of the bytes in base 256. */
  lemma {:induction false} HexTextReads(bytes: seq<byte>)
    ensures Numerals.Value(16, HexDigitsOf(HexText(bytes))) == Numerals.Value(256, bytes)
  {
    if bytes != [] {
      var j := |bytes| - 1;
      var init, high, low := HexText(bytes[..j]), bytes[j] / 16, bytes[j] % 16;
      HexTextReads(bytes[..j]);
      HexDigitReads(high);
      HexDigitReads(low);
      hide HexText, HexDigit, HexValueOf;
      assert HexDigitsOf(init + [HexDigit(high), HexDigit(low)]) == HexDigitsOf(init) + [high, low];
      TwoMoreDigits(HexDigitsOf(init), high, low);
      assert HexText(bytes) == init + [HexDigit(high), HexDigit(low)] by { HexTextGrows(bytes); }
    }
  }

  lemma HexTextGrows(bytes: seq<byte>)
    requires bytes != []
    ensures var j := |bytes| - 1;
      HexText(bytes) == HexText(bytes[..j]) + [HexDigit(bytes[j] / 16), HexDigit(bytes[j] % 16)]
  {
  }

  lemma TwoMoreDigits(digits: seq<nat>, high: nat, low: nat)
    ensures Numerals.Value(16, digits + [high, low]) == Numerals.Value(16, digits) * 256 + high * 16 + low
  {
    var all := digits + [high, low];
    assert all[..|all| - 1] == digits + [high] && (digits + [high])[..|digits|] == digits;
  }

  // ---------- The text ----------

  /** Shown as it is: printable, terminated, and without the name of the native token. */
  predicate IsPlain(code: seq<byte>)
    requires |code| == CURRENCY_SIZE
  {
    && IsPurelyAscii(code, true) && code[CURRENCY_SIZE - 1] == 0
    && !Contains(AsText(code[..FirstZero(code)]), "XRP")
  }

  function CodeText(code: seq<byte>): string
    requires |code| == CURRENCY_SIZE
  {
    if IsNonStandard(code) then
      if IsPlain(code) then AsText(code[..FirstZero(code)]) else HexText(code)
    else if AllZeros(code) then "XRP"
    else TickerText(code)
  }

  /** The plain code that spells the ticker of a standard one. */
  predicate SpellsTicker(plain: seq<byte>, standard: seq<byte>)
    requires |plain| == |standard| == CURRENCY_SIZE
  {
    && IsStandard(standard)
    && plain[0] == standard[12] && plain[1] == standard[13] && plain[2] == standard[14]
    && forall i :: 3 <= i < CURRENCY_SIZE ==> plain[i] == 0
  }

  predicate SaysXrp(code: seq<byte>, i: nat)
    requires i + 2 < |code|
  {
    code[i] == 88 && code[i + 1] == 82 && code[i + 2] == 80
  }

  lemma XrpInFigures(code: seq<byte>, n: nat)
    requires n <= |code|
    ensures Contains(AsText(code[..n]), "XRP") <==> exists i: nat :: i + 2 < n && SaysXrp(code, i)
  {
    var text := AsText(code[..n]);
    assert forall i :: 0 <= i < n ==> text[i] == code[i] as char;
    if Contains(text, "XRP") {
      var i :| 0 <= i <= |text| && HasPartAt(text, "XRP", i);
      assert text[i..i + 3][0] == 'X' && text[i..i + 3][1] == 'R' && text[i..i + 3][2] == 'P';
      assert SaysXrp(code, i);
    }
    if i: nat :| i + 2 < n && SaysXrp(code, i) {
      assert text[i..i + 3] == "XRP";
      assert HasPartAt(text, "XRP", i);
    }
  }

  lemma {:induction false} FirstZeroIs(code: seq<byte>, n: nat)
    requires n < |code| && code[n] == 0 && forall i :: 0 <= i < n ==> code[i] != 0
    ensures FirstZero(code) == n
  {
    if n > 0 {
      FirstZeroIs(code[1..], n - 1);
    }
  }

  /** In figures: characters 32 to 126 up to the first zero, of which there is one, zeros
      from there on, and no XRP among the characters. */
  lemma PlainInFigures(code: seq<byte>)
    requires |code| == 20
    ensures IsPlain(code) <==> exists n :: IsPlainOf(code, n)
  {
    hide Contains;
    XrpInFigures(code, FirstZero(code));
    if IsPlain(code) {
      assert IsPlainOf(code, FirstZero(code));
    }
    if n :| IsPlainOf(code, n) {
      FirstZeroIs(code, n);
    }
  }

  /** The code holds `n` characters. */
  predicate IsPlainOf(code: seq<byte>, n: nat) {
    && 1 <= n < |code| && (forall i :: 0 <= i < n ==> 32 <= code[i] <= 126)
    && (forall i :: n <= i < |code| ==> code[i] == 0)
    && !exists i: nat :: i + 2 < n && SaysXrp(code, i)
  }

  /** What the text of each kind of code is: three characters from its middle, the
      characters of a printable code, or its hexadecimal digits. */
  lemma CodeTextReads(code: seq<byte>)
    requires |code| == 20
    ensures (forall i :: 0 <= i < 20 ==> code[i] == 0) ==> CodeText(code) == "XRP"
    ensures IsStandard(code) ==> CodeText(code) == [code[12] as char, code[13] as char, code[14] as char]
    ensures IsNonStandard(code) && IsPlain(code) ==>
      |CodeText(code)| == FirstZero(code)
      && forall i :: 0 <= i < FirstZero(code) ==> CodeText(code)[i] == code[i] as char
    ensures IsNonStandard(code) && !IsPlain(code) ==>
      |CodeText(code)| == 40
      && Numerals.Value(16, HexDigitsOf(CodeText(code))) == Numerals.Value(256, code)
  {
    HexTextReads(code);
    hide HexText, IsPlain;
  }

  lemma TickerIsNotXrp(code: seq<byte>)
    requires |code| == CURRENCY_SIZE && IsStandard(code)
    ensures TickerText(code) != "XRP"
    ensures forall i :: 12 <= i <= 14 ==> IsPrintable(code[i])
  {
    assert IsTickerChar(code[12]) && IsTickerChar(code[13]) && IsTickerChar(code[14]);
    var text := TickerText(code);
    assert text[0] == code[12] as char && text[1] == code[13] as char && text[2] == code[14] as char;
    assert "XRP"[0] == 'X' && "XRP"[1] == 'R' && "XRP"[2] == 'P';
  }

  lemma ThreeCharacters(text: string)
    requires |text| == 3
    ensures Contains(text, "XRP") <==> text == "XRP"
  {
    assert text[0..0 + 3] == text;
    assert HasPartAt(text, "XRP", 0) <==> text == "XRP";
    assert forall i :: HasPartAt(text, "XRP", i) ==> i == 0;
  }

  /** A code that spells a ticker is nonstandard and shown as the ticker. */
  lemma SpelledTickerReads(plain: seq<byte>, standard: seq<byte>)
    requires |plain| == |standard| == CURRENCY_SIZE && SpellsTicker(plain, standard)
    ensures IsNonStandard(plain) && IsPlain(plain) && CodeText(plain) == TickerText(standard) == CodeText(standard)
  {
    TickerIsNotXrp(standard);
    assert plain[0] != 0 && plain[1] != 0 && plain[2] != 0 && plain[3] == 0;
    assert FirstZero(plain) == 3;
    var text := AsText(plain[..3]);
    assert text == TickerText(standard);
    ThreeCharacters(text);
  }

  lemma PlainTextTells(code: seq<byte>, other: seq<byte>)
    requires |code| == |other| == CURRENCY_SIZE && IsPlain(code) && IsPlain(other)
    requires AsText(code[..FirstZero(code)]) == AsText(other[..FirstZero(other)])
    ensures code == other
  {
    var n := FirstZero(code);
    var text, text' := AsText(code[..n]), AsText(other[..n]);
    assert FirstZero(other) == n;
    forall i | 0 <= i < CURRENCY_SIZE ensures code[i] == other[i] {
      if i < n {
        assert text[i] == code[i] as char && text'[i] == other[i] as char;
      }
    }
  }

  /** A plain code with the text of a standard one spells its ticker. */
  lemma PlainWithTicker(plain: seq<byte>, standard: seq<byte>)
    requires |plain| == |standard| == CURRENCY_SIZE && IsPlain(plain) && IsStandard(standard)
    requires AsText(plain[..FirstZero(plain)]) == TickerText(standard)
    ensures SpellsTicker(plain, standard)
  {
    var text := AsText(plain[..FirstZero(plain)]);
    assert FirstZero(plain) == 3;
    assert text[0] == plain[0] as char && text[1] == plain[1] as char && text[2] == plain[2] as char;
    assert TickerText(standard)[0] == standard[12] as char && TickerText(standard)[1] == standard[13] as char;
    assert TickerText(standard)[2] == standard[14] as char;
  }

  /** The lengths of the four kinds of text. */
  lemma KindsOfText(code: seq<byte>)
    requires |code| == CURRENCY_SIZE
    ensures IsNonStandard(code) && !IsPlain(code) ==> |CodeText(code)| == 40
    ensures IsNonStandard(code) && IsPlain(code) ==> |CodeText(code)| < 20 && CodeText(code) != "XRP"
    ensures !IsNonStandard(code) ==> |CodeText(code)| == 3
    ensures !IsNonStandard(code) ==> AllZeros(code) || (IsStandard(code) && CodeText(code) != "XRP")
  {
    if IsStandard(code) {
      TickerIsNotXrp(code);
    }
    ThreeCharacters("XRP");
  }

  /** Equal texts mean equal codes, but for one family: the text of a standard code is
      also that of the nonstandard code that spells its ticker. */
  lemma TextTellsCode(code: seq<byte>, other: seq<byte>)
    requires |code| == |other| == CURRENCY_SIZE
    ensures CodeText(code) == CodeText(other)
      <==> code == other || SpellsTicker(code, other) || SpellsTicker(other, code)
  {
    if SpellsTicker(code, other) {
      SpelledTickerReads(code, other);
    }
    if SpellsTicker(other, code) {
      SpelledTickerReads(other, code);
    }
    KindsOfText(code);
    KindsOfText(other);
    if CodeText(code) == CodeText(other) {
      SameText(code, other);
    }
  }

  lemma SameText(code: seq<byte>, other: seq<byte>)
    requires |code| == |other| == CURRENCY_SIZE && CodeText(code) == CodeText(other)
    ensures code == other || SpellsTicker(code, other) || SpellsTicker(other, code)
  {
    KindsOfText(code);
    KindsOfText(other);
    hide IsPlain, AllZeros, IsStandard, SpellsTicker;
    if IsNonStandard(code) && IsNonStandard(other) {
      if IsPlain(code) {
        PlainTextTells(code, other);
      } else {
        HexTextTells(code, other);
      }
    } else if IsNonStandard(code) {
      PlainWithTicker(code, other);
    } else if IsNonStandard(other) {
      PlainWithTicker(other, code);
    } else if AllZeros(code) {
      ZerosAreOne(code, other);
    } else {
      StandardTextIsHonest(code, other);
    }
  }

  lemma ZerosAreOne(code: seq<byte>, other: seq<byte>)
    requires |code| == |other| && AllZeros(code) && AllZeros(other)
    ensures code == other
  {
  }

  /** For example, the standard code of USD and the nonstandard one that spells it. */
  lemma TwoCodesReadUsd()
    ensures var zeros := seq(17, _ => 0);
      var usd: seq<byte> := ['U' as int, 'S' as int, 'D' as int];
      var plain, standard := usd + zeros, zeros[..12] + usd + zeros[..5];
      plain != standard && CodeText(plain) == CodeText(standard) == "USD"
  {
    var zeros: seq<byte> := seq(17, _ => 0);
    var usd: seq<byte> := ['U' as int, 'S' as int, 'D' as int];
    var plain, standard := usd + zeros, zeros[..12] + usd + zeros[..5];
    assert standard[12] == 'U' as int && standard[13] == 'S' as int && standard[14] == 'D' as int;
    assert IsTickerChar(standard[12]) && IsTickerChar(standard[13]) && IsTickerChar(standard[14]);
    assert plain[0] == 'U' as int;
    SpelledTickerReads(plain, standard);
    assert TickerText(standard) == "USD";
  }

  // ---------- Writing it ----------

  /** `read_hex` */
  method ReadHex(dst: array<char>, src: seq<byte>) returns (whole: bool)
    modifies dst
    ensures whole <==> 2 * |src| <= dst.Length
    ensures whole ==> dst[..2 * |src|] == HexText(src) && dst[2 * |src|..] == old(dst[2 * |src|..])
  {
    var i := 0;
    while i < |src| && i * 2 + 1 < dst.Length
      invariant i <= |src| && 2 * i <= dst.Length
      invariant dst[..2 * i] == HexText(src[..i])
      invariant forall k :: 2 * i <= k < dst.Length ==> dst[k] == old(dst[k])
    {
      HexGrows(src, i);
      dst[i * 2] := HexDigit(src[i] / 16);
      dst[i * 2 + 1] := HexDigit(src[i] % 16);
      assert dst[..2 * (i + 1)] == dst[..2 * i] + [HexDigit(src[i] / 16), HexDigit(src[i] % 16)];
      i := i + 1;
    }
    assert i == |src| ==> src[..i] == src;
    whole := i == |src|;
  }

  lemma HexGrows(src: seq<byte>, i: nat)
    requires i < |src|
    ensures HexText(src[..i + 1]) == HexText(src[..i]) + [HexDigit(src[i] / 16), HexDigit(src[i] % 16)]
  {
    assert src[..i + 1][..i] == src[..i];
  }

  lemma {:induction false} HexHasNoTerminator(bytes: seq<byte>)
    ensures '\0' !in HexText(bytes)
  {
    if bytes != [] {
      HexHasNoTerminator(bytes[..|bytes| - 1]);
    }
  }

  method CopyBytes(dst: array<char>, text: string)
    requires |text| <= dst.Length
    modifies dst
    ensures dst[..|text|] == text && dst[|text|..] == old(dst[|text|..])
  {
    forall i | 0 <= i < |text| {
      dst[i] := text[i];
    }
  }

  /** `format_non_standard_currency`; the target has been zeroed before. */
  method FormatNonStandardCurrency(code: seq<byte>, dst: array<char>)
    requires |code| == CURRENCY_SIZE && dst.Length >= MAX_FIELD_LEN && Zeroed(dst[..], 0)
    modifies dst
    ensures TextAt(dst[..], 0) == CodeText(code)
  {
    hide IsPurelyAscii, IsStandard, AllZeros, HexText, TextAt, Contains;
    var nonStandard := CheckNonStandard(code);
    if nonStandard {
      var ascii := CheckPurelyAscii(code, true);
      if ascii && code[CURRENCY_SIZE - 1] == 0 && !Contains(AsText(code[..FirstZero(code)]), "XRP") {
        CopyBytes(dst, AsText(code));
        PlainIsHeld(code, dst[..]);
        return;
      }
      var whole := ReadHex(dst, code);
      HexHasNoTerminator(code);
    } else {
      var zeros := CheckAllZeros(code);
      if zeros {
        CopyBytes(dst, "XRP");
      } else {
        CopyBytes(dst, AsText(code[12..15]));
        TickerIsText(code);
      }
    }
    TextIsHeld(dst[..], CodeText(code));
  }

  lemma TickerIsText(code: seq<byte>)
    requires |code| == CURRENCY_SIZE && IsStandard(code)
    ensures AsText(code[12..15]) == TickerText(code) && '\0' !in TickerText(code)
  {
    TickerIsNotXrp(code);
  }

  lemma TextIsHeld(buffer: seq<char>, text: string)
    requires |text| < |buffer| && buffer[..|text|] == text && '\0' !in text
    requires forall i :: |text| <= i < |buffer| ==> buffer[i] == '\0'
    ensures TextAt(buffer, 0) == text
  {
    HeldIsRead(buffer, 0, text);
  }

  lemma PlainIsHeld(code: seq<byte>, buffer: seq<char>)
    requires |code| == CURRENCY_SIZE < |buffer| && IsPlain(code) && buffer[..CURRENCY_SIZE] == AsText(code)
    requires forall i :: CURRENCY_SIZE <= i < |buffer| ==> buffer[i] == '\0'
    ensures TextAt(buffer, 0) == AsText(code[..FirstZero(code)])
  {
    var n := FirstZero(code);
    assert forall i :: 0 <= i < CURRENCY_SIZE ==> buffer[i] == buffer[..CURRENCY_SIZE][i] == code[i] as char;
    assert buffer[..n] == AsText(code[..n]);
    TextIsHeld(buffer, AsText(code[..n]));
  }
}
