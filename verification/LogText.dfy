/** The text of a packet log: `hex_string`, `hex_string_wide` and the stream-log filter. */
module LogText {
  import opened Common
  import opened Packets

  function HexDigit(n: nat): char
    requires n < 16
  { "0123456789abcdef"[n] }

  /** An entry of the table `hexAscii`, and `%02x`. */
  function Hex2(b: byte): (s: string)
    ensures |s| == 2
  { [HexDigit(b as int / 16), HexDigit(b as int % 16)] }

  /** The default `width` of `hex_string_wide`, the only one in use. */
  const LINE: nat := 32

  /** What stands before byte `i`: a space, or a line break every 32 bytes. */
  function Separator(i: nat): string
  { if i % LINE != 0 then " " else "\n\t" }

  /** Bytes `i` and following, each after its separator. */
  function HexFrom(bytes: seq<byte>, i: nat): string
    requires i <= |bytes|
    decreases |bytes| - i
  {
    if i == |bytes| then "" else Separator(i) + Hex2(bytes[i]) + HexFrom(bytes, i + 1)
  }

  /** Indented lines of 32. */
  function WideText(bytes: seq<byte>): string
    requires bytes != []
  { "\n\t" + Hex2(bytes[0]) + HexFrom(bytes, 1) }

  /** The text `hex_string` is for: a single line up to 32 bytes, indented lines of 32 above. */
  function HexText(bytes: seq<byte>): string {
    if bytes == [] then ""
    else if |bytes| <= LINE then Hex2(bytes[0]) + HexFrom(bytes, 1)
    else WideText(bytes)
  }

  /** Line breaks before the end of byte `i` (counting the first), the variable `curLine` of the source. */
  function Lines(i: nat): nat
    requires i > 0
  { 1 + (i - 1) / LINE }

  lemma LinesStep(i: nat)
    requires i > 0
    ensures Lines(i + 1) == Lines(i) + One(i % LINE == 0)
  {}

  /** How much `hex_string_wide` and `hex_string` allocate. */
  function WideSize(n: nat): nat { 3 * n + n / LINE + 2 }

  function BufferSize(n: nat): nat {
    if n == 0 then 1 else if n <= LINE then 3 * n else WideSize(n)
  }

  /**
   The buffer of `hex_string_wide`, when `malloc` returned memory that held `junk`: for full lines there
   is one character too many before the terminating zero, and it is never written.
   */
  function WideBuffer(bytes: seq<byte>, junk: seq<char>): seq<char>
    requires bytes != [] && |junk| == WideSize(|bytes|)
  {
    WideText(bytes) + (if |bytes| % LINE == 0 then [junk[|junk| - 2]] else []) + ['\0']
  }

  /** `hex_string_wide`, filling the buffer by index arithmetic. */
  method HexStringWide(bytes: seq<byte>, junk: seq<char>) returns (result: array<char>)
    requires bytes != [] && |junk| == WideSize(|bytes|)
    ensures fresh(result) && result[..] == WideBuffer(bytes, junk)
  {
    hide HexFrom, Hex2;
    var length := |bytes|;
    var lines := length / LINE + 1;
    result := new char[length * 3 + lines + 1](i requires 0 <= i < |junk| => junk[i]);
    result[length * 3 + lines] := '\0';
    result[0] := '\n';
    result[1] := '\t';
    var first := Hex2(bytes[0]);
    result[2], result[3] := first[0], first[1];
    assert result[..4] == "\n\t" + first;
    ghost var end := 3 * length + Lines(length);
    LinesStep(length);
    ghost var left := (if length % LINE == 0 then [junk[|junk| - 2]] else []) + ['\0'];
    assert result[end..] == left;
    FillLines(result, bytes);
    assert result[..] == result[..end] + result[end..];
  }

  /** The loop of `hex_string_wide`: bytes from the second one on. */
  method FillLines(result: array<char>, bytes: seq<byte>)
    requires bytes != [] && result.Length > 3 * |bytes| + Lines(|bytes|)
    requires result[..4] == "\n\t" + Hex2(bytes[0])
    modifies result
    ensures var text := WideText(bytes);
            |text| == 3 * |bytes| + Lines(|bytes|) && result[..|text|] == text
    ensures var end := 3 * |bytes| + Lines(|bytes|); result[end..] == old(result[end..])
  {
    hide Hex2, Separator, HexFrom;
    ghost var text, end := "\n\t" + Hex2(bytes[0]) + HexFrom(bytes, 1), 3 * |bytes| + Lines(|bytes|);
    HexLength(bytes, 1);
    var i, curLine := 1, 1;
    while i < |bytes|
      invariant 1 <= i <= |bytes| && curLine == Lines(i)
      invariant 3 * i + curLine <= end && |text| == end
      invariant result[..3 * i + curLine] + HexFrom(bytes, i) == text
      invariant result[end..] == old(result[end..])
    {
      LinesStep(i);
      SeparatorLength(i);
      HexLength(bytes, i + 1);
      HexFirst(bytes, i);
      ghost var before := result[..3 * i + curLine];
      ghost var next := Separator(i) + Hex2(bytes[i]);
      assert before + (next + HexFrom(bytes, i + 1)) == (before + next) + HexFrom(bytes, i + 1);
      PutByte(result, 3 * i + curLine, i, bytes[i]);
      if i % LINE == 0 {
        curLine := curLine + 1;
      }
      i := i + 1;
      assert result[..3 * i + curLine] == before + next;
    }
    HexLast(bytes);
  }

  lemma HexFirst(bytes: seq<byte>, i: nat)
    requires i < |bytes|
    ensures HexFrom(bytes, i) == (Separator(i) + Hex2(bytes[i])) + HexFrom(bytes, i + 1)
  {}

  lemma HexLast(bytes: seq<byte>)
    ensures HexFrom(bytes, |bytes|) == ""
  {}

  /** One turn of the loop, at position `at` of the buffer. */
  method PutByte(result: array<char>, at: nat, i: nat, b: byte)
    requires at + |Separator(i)| + 2 < result.Length
    modifies result
    ensures var end := at + |Separator(i)| + 2;
            && result[..end] == old(result[..at]) + Separator(i) + Hex2(b)
            && result[end..] == old(result[end..])
  {
    var hex := Hex2(b);
    if i % LINE != 0 {
      result[at] := ' ';
      result[at + 1], result[at + 2] := hex[0], hex[1];
    } else {
      result[at] := '\n';
      result[at + 1] := '\t';
      result[at + 2], result[at + 3] := hex[0], hex[1];
    }
  }

  lemma SeparatorLength(i: nat)
    ensures |Separator(i)| == 1 + One(i % LINE == 0)
  {}

  lemma {:induction false} HexLength(bytes: seq<byte>, i: nat)
    requires 0 < i <= |bytes|
    ensures |HexFrom(bytes, i)| == 3 * (|bytes| - i) + Lines(|bytes|) - Lines(i)
    decreases |bytes| - i
  {
    if i < |bytes| {
      LinesStep(i);
      HexLength(bytes, i + 1);
    }
  }

  /** The buffer of `hex_string`. */
  function HexBuffer(bytes: seq<byte>, junk: seq<char>): seq<char>
    requires |junk| == BufferSize(|bytes|)
  {
    if |bytes| <= LINE then HexText(bytes) + ['\0'] else WideBuffer(bytes, junk)
  }

  /** `hex_string`. */
  method HexString(bytes: seq<byte>, junk: seq<char>) returns (result: array<char>)
    requires |junk| == BufferSize(|bytes|)
    ensures fresh(result) && result[..] == HexBuffer(bytes, junk)
  {
    hide Hex2, HexFrom, Separator;
    if bytes == [] {
      result := new char[1](_ => '\0');
      return;
    }
    if |bytes| > LINE {
      result := HexStringWide(bytes, junk);
      return;
    }
    result := new char[|bytes| * 3](i requires 0 <= i < |junk| => junk[i]);
    result[|bytes| * 3 - 1] := '\0';
    var first := Hex2(bytes[0]);
    result[0], result[1] := first[0], first[1];
    assert result[..2] == Hex2(bytes[0]);
    FillNarrow(result, bytes);
    assert result[..] == result[..result.Length - 1] + [result[result.Length - 1]];
  }

  /** The loop of `hex_string`. */
  method FillNarrow(result: array<char>, bytes: seq<byte>)
    requires 0 < |bytes| <= LINE && result.Length == 3 * |bytes|
    requires result[..2] == Hex2(bytes[0])
    requires result[result.Length - 1] == '\0'
    modifies result
    ensures |HexText(bytes)| == result.Length - 1
    ensures result[..result.Length - 1] == HexText(bytes) && result[result.Length - 1] == '\0'
  {
    hide Hex2, HexFrom, HexText, Separator;
    ghost var end, text := result.Length - 1, HexText(bytes);
    NarrowText(bytes);
    for i := 1 to |bytes|
      invariant result[..3 * i - 1] + HexFrom(bytes, i) == text
      invariant result[end] == '\0'
    {
      HexFirst(bytes, i);
      SeparatorLength(i);
      ghost var before, next := result[..3 * i - 1], Separator(i) + Hex2(bytes[i]);
      assert before + (next + HexFrom(bytes, i + 1)) == (before + next) + HexFrom(bytes, i + 1);
      PutByte(result, 3 * i - 1, i, bytes[i]);
      assert result[..3 * (i + 1) - 1] == before + next;
    }
    HexLast(bytes);
  }

  lemma NarrowText(bytes: seq<byte>)
    requires 0 < |bytes| <= LINE
    ensures HexText(bytes) == Hex2(bytes[0]) + HexFrom(bytes, 1) && |HexText(bytes)| == 3 * |bytes| - 1
  {
    HexLength(bytes, 1);
  }

  // ----- The log -----

  /** `%d` of a non-negative number. */
  function Decimal(n: nat): string {
    if n < 10 then [HexDigit(n)] else Decimal(n / 10) + [HexDigit(n % 10)]
  }

  /** `"%02x[%d]: %s\n"`. */
  function LineWith(p: Packet, text: string): string {
    Hex2(p.bEndpoint) + "[" + Decimal(|p.data|) + "]: " + text + "\n"
  }

  /** The line for a data packet: endpoint, length, bytes. */
  function LogLine(p: Packet): string { LineWith(p, HexText(p.data)) }

  function LogOf(ps: seq<Packet>): string {
    if ps == [] then "" else LogLine(ps[0]) + LogOf(ps[1..])
  }

  /** Logging one more packet appends its line. */
  lemma {:induction false} LogAppend(ps: seq<Packet>, p: Packet)
    ensures LogOf(ps + [p]) == LogOf(ps) + LogLine(p)
  {
    if ps == [] {
      assert [p][1..] == [];
    } else {
      assert (ps + [p])[1..] == ps[1..] + [p];
      LogAppend(ps[1..], p);
    }
  }

  // ----- What the texts look like -----

  /** Byte `b`, the one with number `k`, stands at `at`, after a line break and a tab or after a space. */
  predicate StandsAt(text: string, at: nat, b: byte, k: nat) {
    && 0 < at && at + 2 <= |text| && text[at..at + 2] == Hex2(b)
    && (k % 32 != 0 ==> text[at - 1] == ' ')
    && (k % 32 == 0 ==> at >= 2 && text[at - 2] == '\n' && text[at - 1] == '\t')
  }

  lemma StandsLater(first: string, text: string, at: nat, b: byte, k: nat)
    requires StandsAt(text, at, b, k)
    ensures StandsAt(first + text, |first| + at, b, k)
  {
    hide Hex2;
    assert (first + text)[|first| + at..|first| + at + 2] == text[at..at + 2];
  }

  lemma StandsFirst(i: nat, b: byte, rest: string)
    ensures StandsAt(Separator(i) + Hex2(b) + rest, |Separator(i)|, b, i)
  {
    var text, at := Separator(i) + Hex2(b) + rest, |Separator(i)|;
    assert text[at..at + 2] == Hex2(b);
  }

  /** The text from byte i on, by the position of each byte in it. */
  lemma {:induction false} HexFromAt(bytes: seq<byte>, i: nat, k: nat)
    requires 0 < i <= k < |bytes|
    ensures StandsAt(HexFrom(bytes, i), 3 * (k - i) + 1 + Lines(k + 1) - Lines(i), bytes[k], k)
    decreases k - i
  {
    hide Hex2, StandsAt, HexFrom, Separator;
    HexFirst(bytes, i);
    SeparatorLength(i);
    LinesStep(i);
    if i == k {
      StandsFirst(i, bytes[i], HexFrom(bytes, i + 1));
    } else {
      HexFromAt(bytes, i + 1, k);
      StandsLater(Separator(i) + Hex2(bytes[i]), HexFrom(bytes, i + 1),
                  3 * (k - i - 1) + 1 + Lines(k + 1) - Lines(i + 1), bytes[k], k);
    }
  }

  /**
   A text of more than 32 bytes, character by character: byte k stands at 3k + 2 and one more for each full line
   before it; the first byte of a line of 32 comes after a line break and a tab, every other one after a space.
   */
  lemma WideTextAt(bytes: seq<byte>, k: nat)
    requires |bytes| > 32 && k < |bytes|
    ensures var text, at := HexText(bytes), 3 * k + 2 + k / 32;
            && at + 2 <= |text| == 3 * |bytes| + 1 + (|bytes| - 1) / 32
            && text[at..at + 2] == Hex2(bytes[k])
            && (k % 32 == 0 ==> text[at - 2] == '\n' && text[at - 1] == '\t')
            && (k % 32 != 0 ==> text[at - 1] == ' ')
  {
    hide Hex2, HexFrom;
    HexLength(bytes, 1);
    var first, rest := "\n\t" + Hex2(bytes[0]), HexFrom(bytes, 1);
    if k > 0 {
      HexFromAt(bytes, 1, k);
      StandsLater(first, rest, 3 * (k - 1) + 1 + Lines(k + 1) - Lines(1), bytes[k], k);
    }
  }

  /** A text of up to 32 bytes: the bytes, with a space between them. */
  lemma NarrowTextAt(bytes: seq<byte>, k: nat)
    requires k < |bytes| <= 32
    ensures var text := HexText(bytes);
            && 3 * k + 2 <= |text| == 3 * |bytes| - 1
            && text[3 * k..3 * k + 2] == Hex2(bytes[k]) && (k > 0 ==> text[3 * k - 1] == ' ')
  {
    hide Hex2, HexFrom;
    NarrowText(bytes);
    var first, rest := Hex2(bytes[0]), HexFrom(bytes, 1);
    if k > 0 {
      HexFromAt(bytes, 1, k);
      StandsLater(first, rest, 3 * (k - 1) + 1 + Lines(k + 1) - Lines(1), bytes[k], k);
    }
  }

  /** The line of a packet of two bytes for endpoint 2. */
  lemma ALogLine()
    ensures LogLine(Packet(0x02, [0x0a, 0xf1], true, true)) == "02[2]: 0a f1\n"
  {
    var bytes: seq<byte> := [0x0a, 0xf1];
    HexLast(bytes);
    assert HexText(bytes) == "0a f1";
  }

  predicate IsHexDigit(c: char) { '0' <= c <= '9' || 'a' <= c <= 'f' }

  predicate IsSpace(c: char) { c == ' ' || c == '\t' || c == '\n' || c == '\U{0B}' || c == '\U{0C}' || c == '\r' }

  predicate Printed(s: string) {
    forall k :: 0 <= k < |s| ==> IsHexDigit(s[k]) || IsSpace(s[k])
  }

  lemma {:induction false} HexIsPrinted(bytes: seq<byte>, i: nat)
    requires i <= |bytes|
    ensures Printed(HexFrom(bytes, i))
    decreases |bytes| - i
  {
    hide HexFrom;
    if i == |bytes| {
      HexLast(bytes);
    } else {
      HexIsPrinted(bytes, i + 1);
      HexFirst(bytes, i);
      ByteIsPrinted(i, bytes[i]);
    }
  }

  lemma ByteIsPrinted(i: nat, b: byte)
    ensures Printed(Separator(i) + Hex2(b))
  {}

  lemma HexTextIsPrinted(bytes: seq<byte>)
    ensures Printed(HexText(bytes))
  {
    hide HexFrom;
    if bytes != [] {
      HexIsPrinted(bytes, 1);
    }
  }

  /** What `%s` prints of a buffer. */
  function CString(buffer: seq<char>): string {
    if buffer == [] || buffer[0] == '\0' then "" else [buffer[0]] + CString(buffer[1..])
  }

  lemma {:induction false} CStringAt(text: string, rest: seq<char>)
    requires '\0' !in text
    ensures CString(text + ['\0'] + rest) == text
  {
    if text != [] {
      assert (text + ['\0'] + rest)[1..] == text[1..] + ['\0'] + rest;
      CStringAt(text[1..], rest);
    }
  }

  /** `%s` of the buffer prints the text, and after full lines above the first the character left by `malloc`. */
  lemma BufferPrinted(bytes: seq<byte>, junk: seq<char>)
    requires |junk| == BufferSize(|bytes|)
    ensures CString(HexBuffer(bytes, junk)) == HexText(bytes) +
              if |bytes| > LINE && |bytes| % LINE == 0 && junk[|junk| - 2] != '\0' then [junk[|junk| - 2]] else []
  {
    hide HexText, CString, WideText;
    var text := HexText(bytes);
    HexTextIsPrinted(bytes);
    assert |bytes| > LINE ==> text == WideText(bytes) by { TextIsWide(bytes); }
    if |bytes| > LINE && |bytes| % LINE == 0 {
      var c := junk[|junk| - 2];
      if c == '\0' {
        CStringAt(text, ['\0']);
        assert HexBuffer(bytes, junk) == text + ['\0'] + ['\0'];
      } else {
        CStringAt(text + [c], []);
        assert HexBuffer(bytes, junk) == (text + [c]) + ['\0'] + [];
      }
    } else {
      CStringAt(text, []);
      assert HexBuffer(bytes, junk) == text + ['\0'] + [];
    }
  }

  lemma TextIsWide(bytes: seq<byte>)
    ensures |bytes| > LINE ==> HexText(bytes) == WideText(bytes)
  {}

  /** `hex_string` yields the text, whatever memory held before, exactly for lengths up to 32 and broken last lines. */
  lemma TextIsCertain(bytes: seq<byte>)
    ensures (forall junk: seq<char> :: |junk| == BufferSize(|bytes|) ==>
              CString(HexBuffer(bytes, junk)) == HexText(bytes))
            <==> |bytes| <= LINE || |bytes| % LINE != 0
  {
    hide CString, HexBuffer, HexText;
    forall junk: seq<char> | |junk| == BufferSize(|bytes|)
      ensures (|bytes| <= LINE || |bytes| % LINE != 0) ==> CString(HexBuffer(bytes, junk)) == HexText(bytes)
    {
      BufferPrinted(bytes, junk);
    }
    if |bytes| > LINE && |bytes| % LINE == 0 {
      var junk := seq(BufferSize(|bytes|), _ => 'x');
      BufferPrinted(bytes, junk);
      assert |CString(HexBuffer(bytes, junk))| == |HexText(bytes)| + 1;
    }
  }

  // ----- The stream-log filter -----

  /** What the filter writes for a packet. */
  function Logged(p: Packet, junk: seq<char>): string
    requires |junk| == BufferSize(|p.data|)
  {
    if |p.data| <= 64 then LineWith(p, CString(HexBuffer(p.data, junk))) else ""
  }

  /** The line is right for packets of less than 64 bytes. A packet of 64 gets the arbitrary character as well. */
  lemma LineIsRight(p: Packet, junk: seq<char>)
    requires |junk| == BufferSize(|p.data|)
    ensures |p.data| < 64 ==> Logged(p, junk) == LogLine(p)
    ensures |p.data| == 64 ==>
              Logged(p, junk) ==
                if junk[|junk| - 2] == '\0' then LogLine(p) else LineWith(p, HexText(p.data) + [junk[|junk| - 2]])
    ensures |p.data| == 64 ==> (Logged(p, junk) == LogLine(p) <==> junk[|junk| - 2] == '\0')
    ensures |p.data| > 64 ==> Logged(p, junk) == ""
  {
    hide HexText, HexBuffer, CString, Hex2, Decimal;
    BufferPrinted(p.data, junk);
    if |p.data| == 64 && junk[|junk| - 2] != '\0' {
      assert |Logged(p, junk)| == |LogLine(p)| + 1;
    }
  }

  /** `PacketFilter_StreamLog`: an output file that only grows. */
  class StreamLog {
    var file: string

    constructor ()
      ensures file == ""
    {
      file := "";
    }

    /** The text of a packet ends at the first zero in the buffer. */
    method Print(p: Packet, hex: array<char>)
      requires '\0' in hex[..]
      modifies this
      ensures file == old(file) + LineWith(p, CString(hex[..]))
    {
      hide Hex2, Decimal, CString;
      var text, i := "", 0;
      assert hex[0..] == hex[..];
      ZeroLater(hex[..]);
      while hex[i] != '\0'
        invariant file == old(file) && i < hex.Length && '\0' in hex[i..]
        invariant text + CString(hex[i..]) == CString(hex[..])
        decreases hex.Length - i
      {
        ZeroLater(hex[i..]);
        assert hex[i..][1..] == hex[i + 1..];
        text := text + [hex[i]];
        i := i + 1;
      }
      ZeroLater(hex[i..]);
      file := file + (Hex2(p.bEndpoint) + "[" + Decimal(|p.data|) + "]: " + text + "\n");
    }

    /** Packets of up to 64 bytes are logged; `junk` is what `malloc` returned. */
    method FilterPacket(p: Packet, junk: seq<char>)
      requires |junk| == BufferSize(|p.data|)
      modifies this
      ensures file == old(file) + Logged(p, junk)
      ensures |p.data| < 64 ==> file == old(file) + LogLine(p)
      ensures |p.data| > 64 ==> file == old(file)
    {
      hide LineWith, CString, HexBuffer, LogLine;
      LineIsRight(p, junk);
      if |p.data| <= 64 {
        var hex := HexString(p.data, junk);
        BufferEnds(p.data, junk);
        Print(p, hex);
      }
    }
  }

  lemma ZeroLater(s: seq<char>)
    requires '\0' in s
    ensures s != []
    ensures if s[0] == '\0' then CString(s) == "" else '\0' in s[1..] && CString(s) == [s[0]] + CString(s[1..])
  {
    var k :| 0 <= k < |s| && s[k] == '\0';
    assert k > 0 ==> s[1..][k - 1] == '\0';
  }

  lemma BufferEnds(bytes: seq<byte>, junk: seq<char>)
    requires |junk| == BufferSize(|bytes|)
    ensures '\0' in HexBuffer(bytes, junk)
  {
    var b := HexBuffer(bytes, junk);
    assert b[|b| - 1] == '\0';
  }
}
