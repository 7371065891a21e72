/** Replaying a log: the parsing loop of UDP_injector.c and the decoding of Injector_UDP. */
module LogReplay {
  import opened Common
  import opened Packets
  import opened LogText

  // ----- The C library on the texts that matter -----

  predicate IsXDigit(c: char) { '0' <= c <= '9' || 'a' <= c <= 'f' || 'A' <= c <= 'F' }

  predicate IsAlnum(c: char) { '0' <= c <= '9' || 'a' <= c <= 'z' || 'A' <= c <= 'Z' }

  function XDigit(c: char): nat
    requires IsXDigit(c)
  {
    if '0' <= c <= '9' then c as int - '0' as int
    else if 'a' <= c <= 'f' then c as int - 'a' as int + 10
    else c as int - 'A' as int + 10
  }

  predicate IsDigit(c: char) { '0' <= c <= '9' }

  /** The value of a string of hexadecimal digits; of no digit at all it is 0. */
  function HexValue(s: string): nat
    requires forall k :: 0 <= k < |s| ==> IsXDigit(s[k])
  {
    if s == "" then 0 else 16 * HexValue(s[..|s| - 1]) + XDigit(s[|s| - 1])
  }

  function DecimalValue(s: string): nat
    requires forall k :: 0 <= k < |s| ==> IsDigit(s[k])
  {
    if s == "" then 0
    else
      assert IsDigit(s[|s| - 1]);
      10 * DecimalValue(s[..|s| - 1]) + XDigit(s[|s| - 1])
  }

  /** How many characters at the start satisfy `p`. */
  function RunOf(s: string, p: char -> bool): (j: nat)
    ensures j <= |s| && forall k :: 0 <= k < j ==> p(s[k])
    ensures j < |s| ==> !p(s[j])
  {
    if s == "" || !p(s[0]) then 0 else 1 + RunOf(s[1..], p)
  }

  /** A sign takes one character. */
  function SignLength(s: string): (j: nat)
    ensures j <= |s|
  {
    if s != "" && (s[0] == '-' || s[0] == '+') then 1 else 0
  }

  function Signed(s: string, n: int): int {
    if s != "" && s[0] == '-' then -n else n
  }

  /**
   `strtol(s, NULL, 16)` of a short string without leading white space: a sign, `0x` if a digit follows, and as
   many digits as there are; what comes after them is ignored.
   */
  function Strtol16(s: string): int {
    Signed(s, Magnitude(s[SignLength(s)..]))
  }

  function Magnitude(t: string): nat {
    var u := if |t| >= 3 && t[0] == '0' && (t[1] == 'x' || t[1] == 'X') && IsXDigit(t[2]) then t[2..] else t;
    HexValue(u[..RunOf(u, IsXDigit)])
  }

  /** `atoi`, which is not defined for values beyond an int. */
  function Atoi(s: string): Option<int> {
    var t := s[Spaces(s)..];
    var u := t[SignLength(t)..];
    var n := Signed(t, DecimalValue(u[..RunOf(u, IsDigit)]));
    if -0x8000_0000 <= n <= 0x7fff_ffff then Some(n) else None
  }

  // ----- Scanning -----

  /** How many characters come before `stop`, but no more than `limit`. */
  function UpTo(s: string, stop: char, limit: nat): (j: nat)
    ensures j <= limit && j <= |s|
  {
    if s == "" || limit == 0 || s[0] == stop then 0 else 1 + UpTo(s[1..], stop, limit - 1)
  }

  function Spaces(s: string): (j: nat)
    ensures j <= |s|
  {
    if s == "" || !IsSpace(s[0]) then 0 else 1 + Spaces(s[1..])
  }

  /** The offset of the first '[', or the length. */
  function Bracket(s: string): (j: nat)
    ensures j <= |s| && (j < |s| ==> s[j] == '[')
  {
    if s == "" || s[0] == '[' then 0 else 1 + Bracket(s[1..])
  }

  /**
   What `sscanf` and `strtol` make of the next token: one or two characters, with white space behind them.
   More characters overrun `data_bytes`; a token at the very end has no end that `sscanf` could find.
   */
  function Token(t: string): Option<byte> {
    if |t| < 3 || IsSpace(t[0]) then None
    else if IsSpace(t[1]) then Some(Strtol16(t[..1]) % 0x100)
    else if IsSpace(t[2]) then Some(Strtol16(t[..2]) % 0x100)
    else None
  }

  /** `n` tokens, for each of which the index moves on by three: the bytes and how many characters they take. */
  function Tokens(s: string, n: nat): Option<(seq<byte>, nat)>
    decreases n
  {
    if n == 0 then Some(([], 0))
    else
      var k := Spaces(s);
      var t := s[k..];
      if Token(t) == None then None else Behind([Token(t).value], k + 3, Tokens(t[3..], n - 1))
  }

  /** The tokens read already, and those to come. */
  function Behind(data: seq<byte>, n: nat, rest: Option<(seq<byte>, nat)>): Option<(seq<byte>, nat)> {
    if rest == None then None else Some((data + rest.value.0, n + rest.value.1))
  }

  // ----- The parsing loop -----

  /** The datagrams sent; or exit code 1; or a read beyond the text, an overrun buffer or a number beyond an int. */
  datatype Outcome = Done(chunks: seq<seq<byte>>) | Rejected | Undefined

  function Chunk(endpoint: byte, usblen: word, data: seq<byte>): seq<byte> {
    [endpoint, 0, usblen / 0x100, usblen % 0x100] + data
  }

  /** Where the next packet starts: two characters before the next '[', or at the end. */
  function NextPacket(text: string, index: nat): nat
    requires 2 <= index <= |text|
  {
    var b := index + Bracket(text[index..]);
    if b < |text| then b - 2 else b
  }

  /** What one turn of the loop comes to: the end, or datagrams sent and where the next turn starts. */
  datatype Turn = Stop(out: Outcome) | Go(chunks: seq<seq<byte>>, index: nat)

  /** One turn of the `while (index < size)` loop. */
  function TurnAt(text: string, index: nat): (turn: Turn)
    requires index < |text|
    ensures turn.Stop? ==> !turn.out.Done?
    ensures turn.Go? ==> index < turn.index <= |text|
  {
    if !IsAlnum(text[index]) then Stop(Rejected)
    else
      var j := UpTo(text[index..], '[', 5);
      if index + j == |text| then Stop(Undefined)
      else if text[index + j] != '[' then Stop(Rejected)
      else
        var start := index + j + 1;
        var k := UpTo(text[start..], ']', 11);
        var length := Atoi(text[start..start + k]);
        if start + k + 2 > |text| || length == None then Stop(Undefined)
        else
          var body := start + k + 2;
          Body(text, index, Strtol16(text[index..index + j]) % 0x100, length.value % 0x1_0000, body)
  }

  /** The part of a turn after the header; only packets for endpoint 2 are sent. */
  function Body(text: string, index: nat, endpoint: byte, usblen: word, body: nat): (turn: Turn)
    requires index + 3 <= body <= |text|
    ensures turn.Stop? ==> !turn.out.Done?
    ensures turn.Go? ==> index < turn.index <= |text|
  {
    if endpoint != 2 then Go([], NextPacket(text, body))
    else
      var tokens := Tokens(text[body..], usblen);
      if tokens == None || body + tokens.value.1 > |text| then Stop(Undefined)
      else Go([Chunk(endpoint, usblen, tokens.value.0)], NextPacket(text, body + tokens.value.1))
  }

  function Replay(text: string, index: nat): Outcome
    requires index <= |text|
    decreases |text| - index
  {
    if index == |text| then Done([])
    else
      match TurnAt(text, index)
      case Stop(out) => out
      case Go(chunks, next) => Prefixed(chunks, Replay(text, next))
  }

  function Prefixed(chunks: seq<seq<byte>>, rest: Outcome): Outcome {
    if rest.Done? then Done(chunks + rest.chunks) else rest
  }

  // ----- Injector_UDP -----

  predicate Decodable(buf: seq<byte>) {
    |buf| >= 4 && buf[0] != 0 && |buf| >= 4 + BigEndian16(buf[2], buf[3])
  }

  /** `get_packets` on a datagram for a data endpoint, which carries at least the bytes it announces. */
  function Decode(buf: seq<byte>): Packet
    requires Decodable(buf)
  {
    var usblen := BigEndian16(buf[2], buf[3]);
    Packet(buf[0], buf[4..4 + usblen], buf[1] % 2 == 0, buf[1] / 2 % 2 == 0)
  }

  // ----- Reading back what was printed -----

  lemma {:induction false} UpToFound(a: string, stop: char, b: string, limit: nat)
    requires stop !in a && |a| <= limit
    ensures UpTo(a + [stop] + b, stop, limit) == |a|
  {
    if a != "" {
      assert (a + [stop] + b)[1..] == a[1..] + [stop] + b;
      UpToFound(a[1..], stop, b, limit - 1);
    }
  }

  lemma {:induction false} SpacesSkipped(ws: string, t: string)
    requires (forall k :: 0 <= k < |ws| ==> IsSpace(ws[k])) && t != "" && !IsSpace(t[0])
    ensures Spaces(ws + t) == |ws|
  {
    if ws == "" {
      assert ws + t == t;
    } else {
      assert (ws + t)[1..] == ws[1..] + t;
      SpacesSkipped(ws[1..], t);
    }
  }

  lemma {:induction false} BracketAfter(a: string, b: string)
    requires '[' !in a
    ensures Bracket(a + b) == |a| + Bracket(b)
  {
    if a == "" {
      assert a + b == b;
    } else {
      assert (a + b)[1..] == a[1..] + b;
      BracketAfter(a[1..], b);
    }
  }

  lemma DigitIsRight(n: nat)
    requires n < 16
    ensures IsHexDigit(HexDigit(n)) && IsXDigit(HexDigit(n)) && XDigit(HexDigit(n)) == n
    ensures IsAlnum(HexDigit(n)) && !IsSpace(HexDigit(n)) && HexDigit(n) != '[' && HexDigit(n) != ']'
    ensures n < 10 ==> IsDigit(HexDigit(n))
    ensures HexDigit(n) != '-' && HexDigit(n) != '+'
  {}

  lemma {:induction false} WholeRun(s: string, p: char -> bool)
    requires forall k :: 0 <= k < |s| ==> p(s[k])
    ensures RunOf(s, p) == |s|
  {
    if s != "" {
      WholeRun(s[1..], p);
    }
  }

  lemma Hex2IsRight(b: byte)
    ensures var s := Hex2(b);
            && Strtol16(s) == b as int
            && IsAlnum(s[0]) && !IsSpace(s[0]) && !IsSpace(s[1]) && '[' !in s
  {
    DigitIsRight(b as int / 16);
    DigitIsRight(b as int % 16);
    var s := Hex2(b);
    WholeRun(s, IsXDigit);
    assert s[0..] == s && s[..2] == s && s[..1] == [s[0]];
    assert HexValue(s[..1]) == XDigit(s[0]);
  }

  lemma {:induction false} DecimalIsRight(n: nat)
    ensures var s := Decimal(n);
            && s != "" && ']' !in s && (forall k :: 0 <= k < |s| ==> IsDigit(s[k]))
            && DecimalValue(s) == n
  {
    if n < 10 {
      DigitIsRight(n);
      assert [HexDigit(n)][..0] == "";
    } else {
      DecimalIsRight(n / 10);
      DigitIsRight(n % 10);
      var s := Decimal(n);
      assert s[..|s| - 1] == Decimal(n / 10);
    }
  }

  /** `atoi` on the digits of a number, with or without a minus sign, exactly as far as an int reaches. */
  lemma AtoiOfDecimal(n: nat)
    ensures Atoi(Decimal(n)) == if n < 0x8000_0000 then Some(n) else None
    ensures Atoi("-" + Decimal(n)) == if n <= 0x8000_0000 then Some(-(n as int)) else None
  {
    hide Decimal, DecimalValue, Atoi;
    DecimalIsRight(n);
    AtoiOfDigits(Decimal(n));
    AtoiOfMinus(Decimal(n));
  }

  lemma AtoiOfDigits(s: string)
    requires s != "" && forall k :: 0 <= k < |s| ==> IsDigit(s[k])
    ensures var n := DecimalValue(s); Atoi(s) == if n < 0x8000_0000 then Some(n) else None
  {
    hide DecimalValue, RunOf, IsDigit, Spaces, IsSpace;
    DigitsAreNoSpace(s[0]);
    NoSpaces(s);
    WholeRun(s, IsDigit);
    assert s[0..] == s && s[..|s|] == s;
  }

  lemma NoSpaces(s: string)
    requires s != "" && !IsSpace(s[0])
    ensures Spaces(s) == 0
  {}

  lemma AtoiOfMinus(s: string)
    requires s != "" && forall k :: 0 <= k < |s| ==> IsDigit(s[k])
    ensures var n := DecimalValue(s); Atoi("-" + s) == if n <= 0x8000_0000 then Some(-(n as int)) else None
  {
    hide DecimalValue, RunOf, IsDigit, Spaces;
    WholeRun(s, IsDigit);
    var m := "-" + s;
    NoSpaces(m);
    assert m[0] == '-' && m[0..] == m && m[1..] == s && s[..|s|] == s;
  }

  lemma DigitsAreNoSpace(c: char)
    requires IsDigit(c)
    ensures !IsSpace(c) && c != '-' && c != '+'
  {}

  /** `Tokens`, one token at a time; `k` characters of white space come first. */
  lemma FirstAt(s: string, k: nat, n: nat)
    requires n > 0 && k == Spaces(s)
    ensures var t := s[k..];
            Tokens(s, n) ==
              if Token(t) == None then None else Behind([Token(t).value], k + 3, Tokens(t[3..], n - 1))
  {
    hide Spaces, Token, Behind;
    TokenFits(s[k..]);
  }

  lemma TokenFits(t: string)
    ensures Token(t).Some? ==> |t| >= 3
  {}

  lemma TokenAt(ws: string, x: char, y: char, c: char, rest: string, n: nat)
    requires n > 0 && !IsSpace(x) && !IsSpace(y) && IsSpace(c)
    requires forall k :: 0 <= k < |ws| ==> IsSpace(ws[k])
    requires Tokens(rest, n - 1).Some?
    ensures var r := Tokens(rest, n - 1).value;
            Tokens(ws + ([x, y, c] + rest), n) == Some(([Strtol16([x, y]) % 0x100] + r.0, |ws| + 3 + r.1))
  {
    hide IsSpace, Strtol16, Tokens, Spaces;
    var t := [x, y, c] + rest;
    SpacesSkipped(ws, t);
    assert (ws + t)[|ws|..] == t && t[3..] == rest && t[..2] == [x, y];
    FirstAt(ws + t, |ws|, n);
  }

  lemma FirstToken(ws: string, b: byte, c: char, rest: string, n: nat)
    requires n > 0 && IsSpace(c) && forall k :: 0 <= k < |ws| ==> IsSpace(ws[k])
    requires Tokens(rest, n - 1).Some?
    ensures var r := Tokens(rest, n - 1).value;
            Tokens(ws + (Hex2(b) + [c] + rest), n) == Some(([b] + r.0, |ws| + 3 + r.1))
  {
    hide IsSpace, Strtol16, Tokens;
    Hex2IsRight(b);
    var x, y := Hex2(b)[0], Hex2(b)[1];
    assert Hex2(b) == [x, y];
    assert Hex2(b) + [c] + rest == [x, y, c] + rest;
    TokenAt(ws, x, y, c, rest, n);
  }

  /** Tokens reads back the bytes from `i` on; `ws` is what is left of the separator before byte `i`. */
  lemma {:induction false} TokensOfHex(bytes: seq<byte>, i: nat, ws: string, rest: string)
    requires i < |bytes| && forall k :: 0 <= k < |ws| ==> IsSpace(ws[k])
    ensures var s := ws + (Hex2(bytes[i]) + HexFrom(bytes, i + 1) + "\n");
            Tokens(s + rest, |bytes| - i) == Some((bytes[i..], |s|))
    decreases |bytes| - i
  {
    hide Hex2, Tokens, IsSpace, HexFrom, Separator;
    var hex, more := Hex2(bytes[i]), HexFrom(bytes, i + 1) + "\n";
    var s := ws + (Hex2(bytes[i]) + HexFrom(bytes, i + 1) + "\n");
    var after := more[1..] + rest;
    MoreStartsWithSpace(bytes, i + 1);
    assert s + rest == ws + (hex + [more[0]] + after);
    if i + 1 == |bytes| {
      HexLast(bytes);
      assert after == rest;
      NoTokens(rest);
    } else {
      SeparatorLength(i + 1);
      var ws' := Separator(i + 1)[1..];
      HexFirst(bytes, i + 1);
      TokensOfHex(bytes, i + 1, ws', rest);
      assert more[1..] == ws' + (Hex2(bytes[i + 1]) + HexFrom(bytes, i + 2) + "\n");
    }
    FirstToken(ws, bytes[i], more[0], after, |bytes| - i);
    assert bytes[i..] == [bytes[i]] + bytes[i + 1..];
  }

  lemma NoTokens(s: string)
    ensures Tokens(s, 0) == Some(([], 0))
  {}

  lemma MoreStartsWithSpace(bytes: seq<byte>, i: nat)
    requires 0 < i <= |bytes|
    ensures IsSpace((HexFrom(bytes, i) + "\n")[0])
    ensures i < |bytes| ==> forall k :: 0 <= k < |Separator(i)| ==> IsSpace(Separator(i)[k])
  {}

  // ----- One line -----

  /** What follows a line: nothing, or a line that starts with two characters and a bracket. */
  predicate LineStart(rest: string) {
    rest == "" || (|rest| > 2 && rest[0] != '[' && rest[1] != '[' && rest[2] == '[')
  }

  lemma NextLine(text: string, index: nat, skipped: string, rest: string)
    requires 2 <= index <= |text| && text[index..] == skipped + rest && '[' !in skipped && LineStart(rest)
    ensures NextPacket(text, index) == index + |skipped|
  {
    BracketAfter(skipped, rest);
    if rest != "" {
      assert rest == rest[..2] + rest[2..];
      BracketAfter(rest[..2], rest[2..]);
    }
  }

  lemma LogStartsLines(ps: seq<Packet>)
    ensures LineStart(LogOf(ps))
  {
    if ps != [] {
      hide LogLine, LineStart;
      LineStartsSo(ps[0], LogOf(ps[1..]));
    }
  }

  lemma LineStartsSo(p: Packet, rest: string)
    ensures LineStart(LogLine(p) + rest)
  {
    hide HexText, Decimal, Hex2;
    var head, tail := Hex2(p.bEndpoint), Decimal(|p.data|) + "]: " + HexText(p.data) + "\n" + rest;
    Hex2IsRight(p.bEndpoint);
    assert LogLine(p) + rest == head + ("[" + tail);
    assert (head + ("[" + tail))[2] == '[';
  }

  /** The part of a line after the closing bracket and the colon. */
  function LineBody(p: Packet): string {
    " " + HexText(p.data) + "\n"
  }

  lemma LineHeader(text: string, index: nat, p: Packet, rest: string)
    requires index <= |text| && text[index..] == LogLine(p) + rest && |p.data| < 64
    ensures var d := |Decimal(|p.data|)|;
            var start := index + 3;
            && start + d + 2 <= |text| && IsAlnum(text[index]) && text[index + 2] == '['
            && UpTo(text[index..], '[', 5) == 2 && Strtol16(text[index..index + 2]) == p.bEndpoint as int
            && UpTo(text[start..], ']', 11) == d && Atoi(text[start..start + d]) == Some(|p.data|)
            && text[start + d + 2..] == LineBody(p) + rest
            && start + d + 2 + |LineBody(p)| == index + |LogLine(p)|
  {
    hide HexText, Hex2, Decimal, DecimalValue, UpTo, Strtol16, Atoi, IsAlnum;
    var e, n := Hex2(p.bEndpoint), Decimal(|p.data|);
    var tail := ":" + LineBody(p) + rest;
    Hex2IsRight(p.bEndpoint);
    DecimalIsRight(|p.data|);
    AtoiOfDecimal(|p.data|);
    ShortDecimal(|p.data|);
    assert LogLine(p) + rest == e + ['['] + (n + [']'] + tail);
    UpToFound(e, '[', n + [']'] + tail, 5);
    assert text[index + 3..] == text[index..][3..] == n + [']'] + tail;
    UpToFound(n, ']', tail, 11);
    assert text[index..index + 2] == e && text[index + 2] == text[index..][2];
    assert text[index + 3..index + 3 + |n|] == n;
    assert text[index + 3 + |n| + 2..] == text[index + 3..][|n| + 2..] == LineBody(p) + rest;
  }

  lemma ShortDecimal(n: nat)
    requires n < 100
    ensures |Decimal(n)| <= 2
  {}

  lemma BodyTokens(p: Packet, rest: string)
    requires p.data != []
    ensures Tokens(LineBody(p) + rest, |p.data|) == Some((p.data, |LineBody(p)|))
  {
    hide Hex2, HexFrom, Tokens;
    var ws := if |p.data| <= LINE then " " else " " + "\n\t";
    TokensOfHex(p.data, 0, ws, rest);
    assert LineBody(p) == ws + (Hex2(p.data[0]) + HexFrom(p.data, 1) + "\n");
    assert p.data[0..] == p.data;
  }

  lemma BodyHasNoBracket(p: Packet)
    ensures '[' !in LineBody(p)
  {
    HexTextIsPrinted(p.data);
  }

  /** The datagram for a packet of endpoint 2. */
  function ChunkOf(p: Packet): seq<byte>
    requires |p.data| < 0x1_0000
  {
    Chunk(2, |p.data|, p.data)
  }

  /** The turn that starts at a line of the log. */
  lemma LineTurn(text: string, index: nat, p: Packet, rest: string)
    requires index <= |text| && text[index..] == LogLine(p) + rest && |p.data| < 64
    ensures var body := index + 3 + |Decimal(|p.data|)| + 2;
            && index < |text| && body <= |text|
            && TurnAt(text, index) == Body(text, index, p.bEndpoint, |p.data|, body)
            && text[body..] == LineBody(p) + rest && body + |LineBody(p)| == index + |LogLine(p)|
  {
    hide UpTo, Strtol16, Atoi, IsAlnum, Body, LogLine, LineBody, Decimal;
    LineHeader(text, index, p, rest);
  }

  lemma LineReplayed(text: string, index: nat, p: Packet, rest: string)
    requires index <= |text| && text[index..] == LogLine(p) + rest && |p.data| < 64 && LineStart(rest)
    ensures var next := index + |LogLine(p)|;
            && next <= |text| && text[next..] == rest
            && Replay(text, index) == Prefixed(if p.bEndpoint == 2 then [ChunkOf(p)] else [], Replay(text, next))
  {
    hide HexText, Hex2, Decimal, UpTo, Strtol16, Atoi, IsAlnum, Tokens, LogLine, LineBody, LineStart,
         NextPacket, Replay, TurnAt;
    var body := index + 3 + |Decimal(|p.data|)| + 2;
    var next := index + |LogLine(p)|;
    LineTurn(text, index, p, rest);
    BodyHasNoBracket(p);
    assert text[next..] == text[body..][|LineBody(p)|..] == rest;
    OneTurn(text, index);
    if p.bEndpoint == 2 && p.data != [] {
      BodyTokens(p, rest);
      NoBracketHere();
      assert text[next..] == "" + rest;
      NextLine(text, next, "", rest);
    } else {
      NextLine(text, body, LineBody(p), rest);
      NoTokens(text[body..]);
    }
  }

  lemma OneTurn(text: string, index: nat)
    requires index < |text|
    ensures var turn := TurnAt(text, index);
            Replay(text, index) == if turn.Stop? then turn.out else Prefixed(turn.chunks, Replay(text, turn.index))
  {
    hide TurnAt;
  }

  lemma NoBracketHere()
    ensures '[' !in ""
  {}

  // ----- The round trip -----

  function ChunksOf(ps: seq<Packet>): seq<seq<byte>>
    requires forall k :: 0 <= k < |ps| ==> |ps[k].data| < 64
  {
    if ps == [] then []
    else (if ps[0].bEndpoint == 2 then [ChunkOf(ps[0])] else []) + ChunksOf(ps[1..])
  }

  lemma {:induction false} LogReplayed(text: string, index: nat, ps: seq<Packet>)
    requires index <= |text| && text[index..] == LogOf(ps)
    requires forall k :: 0 <= k < |ps| ==> |ps[k].data| < 64
    ensures Replay(text, index) == Done(ChunksOf(ps))
    decreases |ps|
  {
    hide LogLine, LineStart, ChunkOf, Replay;
    if ps == [] {
      AtEnd(text);
    } else {
      LogStartsLines(ps[1..]);
      LineReplayed(text, index, ps[0], LogOf(ps[1..]));
      LogReplayed(text, index + |LogLine(ps[0])|, ps[1..]);
    }
  }

  /** The packets of endpoint 2, to be filtered and transmitted. */
  function Injected(ps: seq<Packet>): seq<Packet> {
    if ps == [] then []
    else (if ps[0].bEndpoint == 2 then [Packet(2, ps[0].data, true, true)] else []) + Injected(ps[1..])
  }

  function DecodeAll(chunks: seq<seq<byte>>): seq<Packet>
    requires forall k :: 0 <= k < |chunks| ==> Decodable(chunks[k])
  {
    if chunks == [] then [] else [Decode(chunks[0])] + DecodeAll(chunks[1..])
  }

  lemma ChunkDecodes(p: Packet)
    requires |p.data| < 64
    ensures Decodable(ChunkOf(p)) && Decode(ChunkOf(p)) == Packet(2, p.data, true, true)
  {
    assert ChunkOf(p)[4..] == p.data;
  }

  lemma {:induction false} ChunksDecode(ps: seq<Packet>)
    requires forall k :: 0 <= k < |ps| ==> |ps[k].data| < 64
    ensures forall k :: 0 <= k < |ChunksOf(ps)| ==> Decodable(ChunksOf(ps)[k])
    ensures DecodeAll(ChunksOf(ps)) == Injected(ps)
  {
    hide Decodable, Decode, ChunkOf;
    if ps != [] {
      ChunksDecode(ps[1..]);
      if ps[0].bEndpoint == 2 {
        ChunkDecodes(ps[0]);
        assert ChunksOf(ps)[1..] == ChunksOf(ps[1..]);
      } else {
        assert ChunksOf(ps) == ChunksOf(ps[1..]);
      }
    }
  }

  /**
   Log and replay: for every sequence of data packets of at most 63 bytes, replaying its log sends
   exactly the packets of endpoint 2, in order and with the same bytes, to be filtered and transmitted.
   */
  lemma ReplayRoundTrip(ps: seq<Packet>)
    requires forall k :: 0 <= k < |ps| ==> |ps[k].data| < 64
    ensures var out := Replay(LogOf(ps), 0);
            && out.Done? && (forall k :: 0 <= k < |out.chunks| ==> Decodable(out.chunks[k]))
            && DecodeAll(out.chunks) == Injected(ps)
  {
    LogReplayed(LogOf(ps), 0, ps);
    ChunksDecode(ps);
  }

  /** A datagram says with two bits what is not to be done with its packet; decoding reads all of it back. */
  lemma DatagramDecodes(endpoint: byte, data: seq<byte>, filter: bool, transmit: bool)
    requires endpoint != 0 && |data| < 0x1_0000
    ensures var buf: seq<byte> := [endpoint, One(!filter) + 2 * One(!transmit), |data| / 0x100, |data| % 0x100] + data;
            Decodable(buf) && Decode(buf) == Packet(endpoint, data, filter, transmit)
  {
    var buf: seq<byte> := [endpoint, One(!filter) + 2 * One(!transmit), |data| / 0x100, |data| % 0x100] + data;
    assert buf[4..] == data;
  }

  // ----- Texts that are no logs -----

  /** The field that starts at `start` ends at the first `stop`, at the end of the text, or after `limit` characters. */
  predicate IsField(text: string, start: nat, stop: char, limit: nat, n: nat) {
    && start + n <= |text| && n <= limit && stop !in text[start..start + n]
    && (start + n == |text| || n == limit || text[start + n] == stop)
  }

  lemma {:induction false} FieldFound(s: string, stop: char, limit: nat)
    ensures IsField(s, 0, stop, limit, UpTo(s, stop, limit))
    decreases limit
  {
    if s != "" && limit > 0 && s[0] != stop {
      FieldFound(s[1..], stop, limit - 1);
      var n := UpTo(s[1..], stop, limit - 1);
      assert s[0..1 + n] == [s[0]] + s[1..][0..n];
    } else {
      assert s[0..0] == "";
    }
  }

  lemma FieldAt(text: string, start: nat, stop: char, limit: nat)
    requires start <= |text|
    ensures IsField(text, start, stop, limit, UpTo(text[start..], stop, limit))
  {
    FieldFound(text[start..], stop, limit);
    var n := UpTo(text[start..], stop, limit);
    assert text[start..][0..n] == text[start..start + n];
  }

  /**
   The program gives up with exit code 1 at exactly two kinds of text: one that goes on with neither letter nor
   digit, and one with no bracket among the next six characters.
   */
  lemma RejectedExactly(text: string, index: nat)
    requires index < |text|
    ensures TurnAt(text, index) == Stop(Rejected) <==>
              || !('0' <= text[index] <= '9' || 'a' <= text[index] <= 'z' || 'A' <= text[index] <= 'Z')
              || (index + 5 < |text| && '[' !in text[index..index + 6])
  {
    hide Atoi, Strtol16, Tokens, UpTo, NextPacket;
    FieldAt(text, index, '[', 5);
    var j := UpTo(text[index..], '[', 5);
    if index + 5 < |text| {
      assert text[index..index + 6] == text[index..index + j] + text[index + j..index + 6];
      assert j < 6 ==> text[index + j..index + 6][0] == text[index + j];
      if j == 5 {
        assert text[index + 5..index + 6] == [text[index + 5]];
      }
    }
  }

  /** Where a turn goes on, it has read an endpoint of at most 5 and a length of at most 11 characters. */
  lemma HeaderRead(text: string, index: nat)
    returns (j: nat, k: nat)
    requires index < |text| && TurnAt(text, index).Go?
    ensures IsField(text, index, '[', 5, j) && index + j < |text| && text[index + j] == '['
    ensures IsField(text, index + j + 1, ']', 11, k)
    ensures var length := Atoi(text[index + j + 1..index + j + 1 + k]);
            && length.Some?
            && (TurnAt(text, index).chunks == [] <==> Strtol16(text[index..index + j]) % 0x100 != 2)
            && (TurnAt(text, index).chunks != [] ==>
                  |TurnAt(text, index).chunks| == 1 && var chunk := TurnAt(text, index).chunks[0];
                  |chunk| >= 4 && chunk[0] == 2 && chunk[1] == 0
                  && (chunk[2] as int) * 0x100 + chunk[3] == length.value % 0x1_0000)
  {
    hide Atoi, Strtol16, Tokens, UpTo, NextPacket, IsField;
    j := UpTo(text[index..], '[', 5);
    FieldAt(text, index, '[', 5);
    k := UpTo(text[index + j + 1..], ']', 11);
    FieldAt(text, index + j + 1, ']', 11);
  }

  lemma DigitValues(n: nat)
    requires n < 16
    ensures XDigit("0123456789abcdef"[n]) == n && XDigit("0123456789ABCDEF"[n]) == n
  {}

  lemma ShortValues(c: char, d: char)
    ensures IsXDigit(c) ==> HexValue([c]) == XDigit(c)
    ensures IsXDigit(c) && IsXDigit(d) ==> HexValue([c, d]) == 16 * XDigit(c) + XDigit(d)
  {
    assert [c][..0] == "" && [c, d][..1] == [c];
    if IsXDigit(c) {
      assert HexValue([c]) == 16 * HexValue([c][..0]) + XDigit(c);
      if IsXDigit(d) {
        assert HexValue([c, d]) == 16 * HexValue([c, d][..1]) + XDigit(d);
      }
    }
  }

  /** `strtol` on two characters: both digits, the first one, a sign and a digit, or nothing that is a number. */
  lemma TokenOfTwo(c: char, d: char)
    ensures IsXDigit(c) && IsXDigit(d) ==> Strtol16([c, d]) == 16 * XDigit(c) + XDigit(d)
    ensures IsXDigit(c) && !IsXDigit(d) ==> Strtol16([c, d]) == XDigit(c)
    ensures c == '-' && IsXDigit(d) ==> Strtol16([c, d]) == -(XDigit(d) as int)
    ensures c == '+' && IsXDigit(d) ==> Strtol16([c, d]) == XDigit(d)
    ensures !IsXDigit(c) && ((c != '-' && c != '+') || !IsXDigit(d)) ==> Strtol16([c, d]) == 0
  {
    var s := [c, d];
    ShortValues(c, d);
    ShortValues(d, d);
    assert s[1..] == [d] && s[0..] == s && s[..1] == [c] && s[..2] == s && s[..0] == "";
    assert [d][..1] == [d] && [d][..0] == "" && [d][1..] == "";
    assert RunOf("", IsXDigit) == 0;
    if c == '-' || c == '+' {
      assert RunOf([d], IsXDigit) == if IsXDigit(d) then 1 else 0;
    } else {
      assert RunOf([d], IsXDigit) == if IsXDigit(d) then 1 else 0;
      assert RunOf(s, IsXDigit) == if !IsXDigit(c) then 0 else if IsXDigit(d) then 2 else 1;
    }
  }

  /** A token of one character, with a space and something else behind it. */
  lemma TokenOfOne(c: char, rest: string)
    requires !IsSpace(c) && rest != ""
    ensures Token([c, ' '] + rest) == Some(if IsXDigit(c) then XDigit(c) else 0)
  {
    var t := [c, ' '] + rest;
    ShortValues(c, c);
    assert [c][1..] == "" && [c][0..] == [c] && [c][..1] == [c] && [c][..0] == "";
    assert RunOf("", IsXDigit) == 0;
    assert t[..1] == [c];
  }

  /** `strtol` in base 16 on digits of either case, with or without a sign and the prefix `0x`. */
  lemma StrtolOfNumber(sign: string, prefix: string, digits: string)
    requires sign == "" || sign == "+" || sign == "-"
    requires prefix == "" || prefix == "0x" || prefix == "0X"
    requires digits != "" && forall k :: 0 <= k < |digits| ==> IsXDigit(digits[k])
    ensures Strtol16(sign + prefix + digits) == if sign == "-" then -(HexValue(digits) as int) else HexValue(digits)
  {
    hide Magnitude, HexValue, Strtol16;
    MagnitudeOf(prefix, digits);
    SignIsRead(sign, prefix + digits);
    assert sign + prefix + digits == sign + (prefix + digits);
  }

  lemma SignIsRead(sign: string, t: string)
    requires sign == "" || sign == "+" || sign == "-"
    requires t != "" && t[0] != '+' && t[0] != '-'
    ensures Strtol16(sign + t) == if sign == "-" then -(Magnitude(t) as int) else Magnitude(t)
  {
    hide Magnitude;
    if sign == "" {
      assert sign + t == t && t[0..] == t;
    } else {
      assert (sign + t)[1..] == t && (sign + t)[0] == sign[0];
    }
  }

  lemma MagnitudeOf(prefix: string, digits: string)
    requires prefix == "" || prefix == "0x" || prefix == "0X"
    requires digits != "" && forall k :: 0 <= k < |digits| ==> IsXDigit(digits[k])
    ensures Magnitude(prefix + digits) == HexValue(digits)
    ensures (prefix + digits)[0] != '+' && (prefix + digits)[0] != '-'
  {
    hide HexValue, RunOf;
    var t := prefix + digits;
    assert prefix == "" ==> t == digits;
    assert prefix != "" ==> t[2..] == digits && t[2] == digits[0];
    assert digits[..|digits|] == digits;
    WholeRun(digits, IsXDigit);
  }

  // ----- The programs -----

  /** The loops that copy a field up to its closing character. */
  method ScanUpTo(text: string, start: nat, stop: char, limit: nat) returns (j: nat)
    requires start <= |text|
    ensures j == UpTo(text[start..], stop, limit)
  {
    j := 0;
    while start + j < |text| && text[start + j] != stop && j < limit
      invariant start + j <= |text| && j <= limit
      invariant j + UpTo(text[start + j..], stop, limit - j) == UpTo(text[start..], stop, limit)
    {
      assert text[start + j..][1..] == text[start + j + 1..];
      j := j + 1;
    }
  }

  /** The loop that reads the bytes of a packet; `index` ends after the white space of the last one. */
  method ReadTokens(text: string, start: nat, n: nat) returns (tokens: Option<(seq<byte>, nat)>)
    requires start <= |text|
    ensures tokens == Tokens(text[start..], n)
    ensures tokens.Some? ==> start + tokens.value.1 <= |text|
  {
    hide IsSpace, Strtol16, Tokens, Token;
    var data: seq<byte>, index := [], start;
    NothingBehind(Tokens(text[start..], n));
    for bytes := 0 to n
      invariant start <= index <= |text|
      invariant Tokens(text[start..], n) == Behind(data, index - start, Tokens(text[index..], n - bytes))
    {
      var at := SkipSpaces(text, index);
      TokensStep(text, index, at, n - bytes);
      var c := ReadToken(text, at);
      if c == None {
        return None;
      }
      BehindTwice(data, index - start, [c.value], at + 3 - index, Tokens(text[at + 3..], n - bytes - 1));
      data := data + [c.value];
      index := at + 3;
    }
    NoTokens(text[index..]);
    assert data + [] == data;
    return Some((data, index - start));
  }

  /** `sscanf` into `data_bytes`, and `strtol`. */
  method ReadToken(text: string, at: nat) returns (c: Option<byte>)
    requires at <= |text|
    ensures c == Token(text[at..]) && (c.Some? ==> at + 3 <= |text|)
  {
    hide IsSpace, Strtol16;
    var length := 0;
    while length < 3 && at + length < |text| && !IsSpace(text[at + length])
      invariant length <= 3 && at + length <= |text|
      invariant forall k :: 0 <= k < length ==> !IsSpace(text[at..][k])
    {
      length := length + 1;
    }
    if length == 0 || length == 3 || |text| - at < 3 {
      return None;
    }
    assert text[at..at + length] == text[at..][..length];
    c := Some(Strtol16(text[at..at + length]) % 0x100);
  }

  lemma TokensStep(text: string, index: nat, at: nat, n: nat)
    requires index <= |text| && at == index + Spaces(text[index..]) && n > 0
    ensures index <= at <= |text|
    ensures var c := Token(text[at..]);
            && (c.Some? ==> at + 3 <= |text|)
            && Tokens(text[index..], n) ==
               if c.Some? then Behind([c.value], at + 3 - index, Tokens(text[at + 3..], n - 1)) else None
  {
    hide IsSpace, Tokens, Spaces, Strtol16;
    FirstAt(text[index..], at - index, n);
    assert text[index..][at - index..] == text[at..];
    if |text| - at >= 3 {
      assert text[at..][3..] == text[at + 3..];
    }
  }

  lemma BehindTwice(a: seq<byte>, m: nat, b: seq<byte>, n: nat, t: Option<(seq<byte>, nat)>)
    ensures Behind(a, m, Behind(b, n, t)) == Behind(a + b, m + n, t)
  {
    if t.Some? {
      assert a + (b + t.value.0) == a + b + t.value.0;
    }
  }

  lemma NothingBehind(t: Option<(seq<byte>, nat)>)
    ensures Behind([], 0, t) == t
  {
    if t.Some? {
      assert [] + t.value.0 == t.value.0;
    }
  }

  method SkipSpaces(text: string, start: nat) returns (index: nat)
    requires start <= |text|
    ensures index == start + Spaces(text[start..]) && index <= |text|
  {
    index := start;
    while index < |text| && IsSpace(text[index])
      invariant start <= index <= |text|
      invariant index - start + Spaces(text[index..]) == Spaces(text[start..])
    {
      assert text[index..][1..] == text[index + 1..];
      index := index + 1;
    }
  }

  /** Moves to the next packet. */
  method FindNext(text: string, start: nat) returns (index: nat)
    requires 2 <= start <= |text|
    ensures index == NextPacket(text, start)
  {
    index := start;
    while index < |text| && text[index] != '['
      invariant start <= index <= |text|
      invariant index + Bracket(text[index..]) == start + Bracket(text[start..])
    {
      assert text[index..][1..] == text[index + 1..];
      index := index + 1;
    }
    if index < |text| {
      index := index - 2;
    }
  }

  /** One turn of the main loop. */
  method ParsePacket(text: string, index: nat) returns (turn: Turn)
    requires index < |text|
    ensures turn == TurnAt(text, index)
  {
    hide UpTo, Tokens, Strtol16, Atoi, IsAlnum, NextPacket;
    if !IsAlnum(text[index]) {
      return Stop(Rejected);
    }
    var j := ScanUpTo(text, index, '[', 5);
    if index + j == |text| {
      return Stop(Undefined);
    }
    if text[index + j] != '[' {
      return Stop(Rejected);
    }
    var endpoint: byte := Strtol16(text[index..index + j]) % 0x100;
    var start := index + j + 1;
    var k := ScanUpTo(text, start, ']', 11);
    var length := Atoi(text[start..start + k]);
    if start + k + 2 > |text| || length == None {
      return Stop(Undefined);
    }
    var usblen := length.value % 0x1_0000;
    var body := start + k + 2;
    if endpoint != 2 {
      var next := FindNext(text, body);
      return Go([], next);
    }
    var tokens := ReadTokens(text, body, usblen);
    if tokens == None {
      return Stop(Undefined);
    }
    body := body + tokens.value.1;
    var next := FindNext(text, body);
    return Go([Chunk(2, usblen, tokens.value.0)], next);
  }

  /** The main loop of the injector program: the datagrams it sends. */
  method ReplayLog(text: string) returns (out: Outcome)
    ensures out == Replay(text, 0)
  {
    hide Replay, TurnAt;
    var index, chunks := 0, [];
    while index < |text|
      invariant index <= |text|
      invariant Replay(text, 0) == Prefixed(chunks, Replay(text, index))
      decreases |text| - index
    {
      var turn := ParsePacket(text, index);
      OneTurn(text, index);
      if turn.Stop? {
        return turn.out;
      }
      PrefixedTwice(chunks, turn.chunks, Replay(text, turn.index));
      chunks, index := chunks + turn.chunks, turn.index;
    }
    AtEnd(text);
    out := Done(chunks);
  }

  lemma PrefixedTwice(a: seq<seq<byte>>, b: seq<seq<byte>>, rest: Outcome)
    ensures Prefixed(a, Prefixed(b, rest)) == Prefixed(a + b, rest)
  {
    if rest.Done? {
      assert a + (b + rest.chunks) == a + b + rest.chunks;
    }
  }

  lemma AtEnd(text: string)
    ensures Replay(text, |text|) == Done([])
  {}
}
