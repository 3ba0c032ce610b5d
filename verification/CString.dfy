/** Character buffers in the C manner: writes at an offset into a buffer that
    was zero-filled, so that a text is followed by its terminator. */
module CString {

  /** The length of the value buffer on the smallest device. */
  const MAX_FIELD_LEN: nat := 128


  /** `buffer` is `before` with `text` written over it at `start`. */
  ghost predicate Written(buffer: seq<char>, before: seq<char>, start: nat, text: string) {
    && |buffer| == |before| && start + |text| <= |buffer|
    && forall i :: 0 <= i < |buffer| ==>
         buffer[i] == if start <= i < start + |text| then text[i - start] else before[i]
  }

  /** Everything from `start` on is the terminator. */
  ghost predicate Zeroed(buffer: seq<char>, start: nat) {
    start <= |buffer| && forall i :: start <= i < |buffer| ==> buffer[i] == '\0'
  }

  /** The text up to the first terminator is `text`. */
  ghost predicate HoldsText(buffer: seq<char>, start: nat, text: string) {
    && start + |text| < |buffer|
    && buffer[start..start + |text|] == text
    && buffer[start + |text|] == '\0'
    && '\0' !in text
  }

  /** The text a reader of the C string at `start` sees. */
  function TextAt(buffer: seq<char>, start: nat): string
    decreases |buffer| - start
  {
    if start >= |buffer| || buffer[start] == '\0' then "" else [buffer[start]] + TextAt(buffer, start + 1)
  }

  lemma {:induction false} HeldIsRead(buffer: seq<char>, start: nat, text: string)
    requires HoldsText(buffer, start, text)
    ensures TextAt(buffer, start) == text
    decreases |text|
  {
    if text != "" {
      assert buffer[start] == text[0] && buffer[start + 1..start + 1 + |text[1..]|] == text[1..];
      HeldIsRead(buffer, start + 1, text[1..]);
    }
  }

  function Filled(buffer: seq<char>, at: nat, c: char, count: nat): (result: seq<char>)
    requires at + count <= |buffer|
    ensures |result| == |buffer|
    ensures forall i {:trigger result[i]} :: 0 <= i < |buffer| ==>
      result[i] == if at <= i < at + count then c else buffer[i]
  {
    seq(|buffer|, i requires 0 <= i < |buffer| => if at <= i < at + count then c else buffer[i])
  }

  function Moved(buffer: seq<char>, to: nat, from: nat, count: nat): (result: seq<char>)
    requires to + count <= |buffer| && from + count <= |buffer|
    ensures |result| == |buffer|
    ensures forall i {:trigger result[i]} :: 0 <= i < |buffer| ==>
      result[i] == if to <= i < to + count then buffer[i - to + from] else buffer[i]
  {
    seq(|buffer|, i requires 0 <= i < |buffer| => if to <= i < to + count then buffer[i - to + from] else buffer[i])
  }

  method MemSet(buffer: array<char>, at: nat, c: char, count: nat)
    requires at + count <= buffer.Length
    modifies buffer
    ensures buffer[..] == Filled(old(buffer[..]), at, c, count)
  {
    forall i | at <= i < at + count {
      buffer[i] := c;
    }
  }

  /** `memmove`: the regions may overlap. */
  method MemMove(buffer: array<char>, to: nat, from: nat, count: nat)
    requires to + count <= buffer.Length && from + count <= buffer.Length
    modifies buffer
    ensures buffer[..] == Moved(old(buffer[..]), to, from, count)
  {
    forall i | to <= i < to + count {
      buffer[i] := buffer[i - to + from];
    }
  }

  method Store(buffer: array<char>, at: nat, c: char)
    requires at < buffer.Length
    modifies buffer
    ensures buffer[..] == old(buffer[..])[at := c]
  {
    buffer[at] := c;
  }

  /** A terminator stored inside the text ends it there. */
  lemma CutText(buffer: seq<char>, at: nat, text: string, cut: nat)
    requires HoldsText(buffer, at, text) && cut < |text|
    ensures HoldsText(buffer[at + cut := '\0'], at, text[..cut])
    ensures buffer[at + cut] == text[cut]
  {
    assert buffer[at..at + |text|][cut] == buffer[at + cut];
    assert buffer[at + cut := '\0'][at..at + cut] == buffer[at..at + |text|][..cut];
  }

  lemma WrittenChar(before: seq<char>, start: nat, c: char)
    requires start < |before|
    ensures Written(before[start := c], before, start, [c])
  {
  }

  method StrLen(buffer: array<char>, start: nat, ghost text: string) returns (length: nat)
    requires HoldsText(buffer[..], start, text)
    ensures length == |text|
  {
    length := 0;
    forall k | 0 <= k < |text| ensures buffer[start + k] == text[k] && text[k] in text {
      assert buffer[start + k] == buffer[..][start..start + |text|][k];
    }
    assert buffer[start + |text|] == '\0';
    while buffer[start + length] != '\0'
      invariant length <= |text|
      decreases |text| - length
    {
      length := length + 1;
    }
  }

  /** `strncpy` or `snprintf` of a text that fits */
  method PrintText(dst: array<char>, text: string)
    requires |text| < dst.Length && '\0' !in text
    modifies dst
    ensures TextAt(dst[..], 0) == text
  {
    forall i | 0 <= i <= |text| {
      dst[i] := if i < |text| then text[i] else '\0';
    }
    assert dst[..][0..0 + |text|] == text;
    HeldIsRead(dst[..], 0, text);
  }
}
