/**
 * The PC side of the serial servo protocol (src/arduino/pySerialMultiple.py):
 * the message templates of the `'b'` and `'d'` commands and of
 * `sendCommand`, and what the Arduino sketch makes of them.
 */
module SerialCommand {
  import opened Wrappers
  import opened CString
  import opened Fields
  import opened Message
  import opened Sequences

  function DigitChar(d: nat): (c: char)
    requires d < 10
    ensures IsDigit(c) && DigitValue(c) == d
  {
    ('0' as int + d) as char
  }

  /** Python's decimal rendering of a non-negative integer. */
  function NatToString(n: nat): (s: string)
    ensures |s| >= 1
    ensures forall i :: 0 <= i < |s| ==> IsDigit(s[i])
  {
    if n < 10 then [DigitChar(n)] else NatToString(n / 10) + [DigitChar(n % 10)]
  }

  /** `"%s" % n` for an integer `n`: a minus sign for negative values, then the digits. */
  function IntToString(n: int): (s: string)
    ensures |s| >= 1
    ensures forall i :: 0 <= i < |s| ==> IsDigit(s[i]) || (i == 0 && s[i] == '-')
  {
    if n < 0 then "-" + NatToString(-n) else NatToString(n)
  }

  /** Reading the digits back gives the number. */
  lemma {:induction false} DigitsOfNatToString(n: nat)
    ensures DigitsValue(NatToString(n)) == n
  {
    var s := NatToString(n);
    if n >= 10 {
      DigitsOfNatToString(n / 10);
      assert s[..|s| - 1] == NatToString(n / 10);
    } else {
      assert s[..|s| - 1] == [];
    }
  }

  /** `atoi` inverts Python's rendering of an integer after the separating space. */
  lemma AtoiOfIntToString(n: int)
    ensures Atoi([' '] + IntToString(n)) == n
  {
    if n < 0 {
      var ds := NatToString(-n);
      assert [' '] + IntToString(n) == [' ', '-'] + ds;
      AtoiOfSpacedNegative(ds);
      DigitsOfNatToString(-n);
    } else {
      AtoiOfSpacedDigits(NatToString(n));
      DigitsOfNatToString(n);
    }
  }

  /** The message template `'<' + name + ', ' + payload + '>'`. */
  function Frame(name: string, payload: string): (msg: string)
    ensures |msg| == |name| + |payload| + 4
    ensures msg[0] == StartMarker && msg[|msg| - 1] == EndMarker
    ensures msg[1..|msg| - 1] == name + ", " + payload
  {
    [StartMarker] + name + ", " + payload + [EndMarker]
  }

  /** The `'b'` command: the typed direction, framed as a `Servo` message. */
  function BCommand(direction: string): string
  {
    Frame("Servo", direction)
  }

  /** The `'d'` command: the typed delay, framed as a `ServoDelay` message. */
  function DCommand(seconds: string): string
  {
    Frame("ServoDelay", seconds)
  }

  /** `"%s, %s, %s, %s, %s, %s"` generalised to any non-empty list of integers. */
  function Direction(cs: seq<int>): string
    requires |cs| >= 1
    decreases |cs|
  {
    if |cs| == 1 then IntToString(cs[0]) else IntToString(cs[0]) + ", " + Direction(cs[1..])
  }

  /** The direction holds one comma per separator and no marker or NUL. */
  lemma {:induction false} DirectionShape(cs: seq<int>)
    requires |cs| >= 1
    ensures Count(Direction(cs), ',') == |cs| - 1
    ensures StartMarker !in Direction(cs) && EndMarker !in Direction(cs) && NUL !in Direction(cs)
    decreases |cs|
  {
    var x := IntToString(cs[0]);
    assert StartMarker !in x && EndMarker !in x && NUL !in x && ',' !in x by {
      assert forall ch :: ch in x ==> IsDigit(ch) || ch == '-';
    }
    if |cs| > 1 {
      var tail := Direction(cs[1..]);
      DirectionShape(cs[1..]);
      assert Count(x + ", " + tail, ',') == |cs| - 1 by {
        CountAppend(x + ", ", tail, ',');
        CountAppend(x, ", ", ',');
      }
    }
  }

  /** Every character of a frame comes from the name, the separator, the payload or the markers. */
  lemma FrameCount(name: string, payload: string, c: char)
    ensures Count(Frame(name, payload), c) ==
      Count(name, c) + Count(", ", c) + Count(payload, c)
      + (if c == StartMarker then 1 else 0) + (if c == EndMarker then 1 else 0)
  {
    assert Frame(name, payload) == [StartMarker] + (name + (", " + (payload + [EndMarker])));
    CountAppend([StartMarker], name + (", " + (payload + [EndMarker])), c);
    CountAppend(name, ", " + (payload + [EndMarker]), c);
    CountAppend(", ", payload + [EndMarker], c);
    CountAppend(payload, [EndMarker], c);
  }

  /** A `Servo` frame around a payload with five commas and no markers. */
  lemma ServoFrameShape(d: string)
    requires Count(d, ',') == 5 && StartMarker !in d && EndMarker !in d
    ensures Count(Frame("Servo", d), StartMarker) == 1 && Count(Frame("Servo", d), EndMarker) == 1
    ensures Count(Frame("Servo", d), ',') == 6
  {
    FrameCount("Servo", d, StartMarker);
    FrameCount("Servo", d, EndMarker);
    FrameCount("Servo", d, ',');
  }

  /** `sendCommand(c1, ..., c6)`. */
  function SendCommand(c1: int, c2: int, c3: int, c4: int, c5: int, c6: int): (msg: string)
    ensures |msg| >= 2 && msg[0] == StartMarker && msg[|msg| - 1] == EndMarker
    ensures Count(msg, StartMarker) == 1 && Count(msg, EndMarker) == 1
    ensures Count(msg, ',') == 6
  {
    var d := Direction([c1, c2, c3, c4, c5, c6]);
    DirectionShape([c1, c2, c3, c4, c5, c6]);
    ServoFrameShape(d);
    Frame("Servo", d)
  }

  /** Each number of a direction is one token, with its leading space. */
  function Padded(cs: seq<int>): (ts: seq<string>)
    ensures |ts| == |cs|
  {
    if cs == [] then [] else [[' '] + IntToString(cs[0])] + Padded(cs[1..])
  }

  /** A padded number is a single field. */
  lemma PaddedField(x: int)
    ensures [' '] + IntToString(x) != [] && Delimiter !in [' '] + IntToString(x)
  {
    var w := [' '] + IntToString(x);
    assert forall ch :: ch in w ==> ch == ' ' || IsDigit(ch) || ch == '-';
  }

  lemma TokensOfDirectionBase(cs: seq<int>)
    requires |cs| == 1
    ensures Tokens([' '] + Direction(cs), Delimiter) == Padded(cs)
  {
    var w := [' '] + IntToString(cs[0]);
    PaddedField(cs[0]);
    assert Padded(cs) == [w];
    assert [' '] + Direction(cs) == w;
    TokensOfWord(w, [], Delimiter);
  }

  /** A padded field followed by the separator and more text splits at the delimiter. */
  lemma PaddedSplit(x: string, d: string)
    ensures [' '] + (x + ", " + d) == ([' '] + x) + [Delimiter] + ([' '] + d)
  {
    assert ", " == [Delimiter] + [' '];
  }

  /** A direction is its first padded number, a delimiter and the padded rest. */
  lemma DirectionCons(cs: seq<int>)
    requires |cs| > 1
    ensures [' '] + Direction(cs) == ([' '] + IntToString(cs[0])) + [Delimiter] + ([' '] + Direction(cs[1..]))
    ensures Padded(cs) == [[' '] + IntToString(cs[0])] + Padded(cs[1..])
  {
    PaddedSplit(IntToString(cs[0]), Direction(cs[1..]));
  }

  lemma TokensOfDirectionStep(cs: seq<int>)
    requires |cs| > 1
    requires Tokens([' '] + Direction(cs[1..]), Delimiter) == Padded(cs[1..])
    ensures Tokens([' '] + Direction(cs), Delimiter) == Padded(cs)
  {
    var w := [' '] + IntToString(cs[0]);
    var tail := [' '] + Direction(cs[1..]);
    DirectionCons(cs);
    assert Tokens(w + [Delimiter] + tail, Delimiter) == [w] + Tokens(tail, Delimiter) by {
      PaddedField(cs[0]);
      TokensOfWord(w, tail, Delimiter);
    }
  }

  lemma {:induction false} TokensOfDirection(cs: seq<int>)
    requires |cs| >= 1
    ensures Tokens([' '] + Direction(cs), Delimiter) == Padded(cs)
    decreases |cs|
  {
    if |cs| == 1 {
      TokensOfDirectionBase(cs);
    } else {
      TokensOfDirection(cs[1..]);
      TokensOfDirectionStep(cs);
    }
  }

  lemma {:induction false} AtoiOfPadded(cs: seq<int>)
    ensures AtoiAll(Padded(cs)) == cs
  {
    if cs != [] {
      AtoiOfIntToString(cs[0]);
      AtoiOfPadded(cs[1..]);
      assert Padded(cs)[1..] == Padded(cs[1..]);
    }
  }

  /** The range of the sketch's `int` on the AVR boards: 16 bits. */
  predicate IsInt16(x: int) {
    -32768 <= x <= 32767
  }

  /** A command name the sketch can read back: one field, no markers, no NUL. */
  predicate PlainName(name: string) {
    name != [] && Delimiter !in name && EndMarker !in name && NUL !in name
  }

  /** The separator `", "` is the delimiter followed by a space. */
  lemma SeparatorSplit(name: string, d: string)
    ensures name + ", " + d == name + [Delimiter] + ([' '] + d)
  {
    assert ", " == [Delimiter] + [' '];
  }

  lemma BodyTokens(name: string, cs: seq<int>)
    requires PlainName(name) && |cs| >= 1
    ensures Tokens(name + ", " + Direction(cs), Delimiter) == [name] + Padded(cs)
  {
    var d := Direction(cs);
    SeparatorSplit(name, d);
    TokensOfWord(name, [' '] + d, Delimiter);
    TokensOfDirection(cs);
  }

  lemma ParseBody(name: string, cs: seq<int>)
    requires PlainName(name) && |cs| == CommandCount
    ensures ParseData(name + ", " + Direction(cs)) == Success(Command(name, cs))
  {
    var body := name + ", " + Direction(cs);
    BodyTokens(name, cs);
    var toks := Tokens(body, Delimiter);
    ParseDataReadsTokens(body);
    assert toks[1..CommandCount + 1] == Padded(cs);
    AtoiOfPadded(cs);
  }

  /** A frame on the wire is its start marker, its body and its end marker. */
  lemma FrameSplit(junk: string, name: string, d: string, rest: string)
    ensures junk + Frame(name, d) + rest == junk + [StartMarker] + (name + ", " + d) + [EndMarker] + rest
  {
  }

  /**
   * Round trip of the message template for any name and six integers: a
   * message whose body fits the 31 usable cells of the receive buffer is
   * received whole, after any noise, and parsed back into the name and
   * the numbers.
   */
  lemma {:induction false} FrameRoundTrip(name: string, cs: seq<int>, r: Receiver, junk: seq<char>, rest: seq<char>)
    requires PlainName(name) && |cs| == CommandCount
    requires |Frame(name, Direction(cs))| <= NumChars + 1
    requires Idle(r) && StartMarker !in junk
    ensures var (r', left, parsed) := Loop(r, junk + Frame(name, Direction(cs)) + rest);
      && Idle(r') && left == rest
      && parsed == Some(Success(Command(name, cs)))
  {
    var d := Direction(cs);
    var body := name + ", " + d;
    assert EndMarker !in body && NUL !in body by {
      DirectionShape(cs);
    }
    FrameSplit(junk, name, d, rest);
    assert body[..Slot(|body|)] == body by {
      assert |body| <= NumChars - 1;
    }
    assert ParseData(body) == Success(Command(name, cs)) by {
      ParseBody(name, cs);
    }
    LoopHandshake(r, junk, body, rest);
  }

  /** `sendCommand` frames the rendered direction as a `Servo` message. */
  lemma SendCommandFrame(c1: int, c2: int, c3: int, c4: int, c5: int, c6: int)
    ensures SendCommand(c1, c2, c3, c4, c5, c6) == Frame("Servo", Direction([c1, c2, c3, c4, c5, c6]))
  {
  }

  /** `sendCommand` round trip, for the six 16-bit numbers the sketch's `int` fields can hold. */
  lemma SendCommandRoundTrip(c1: int, c2: int, c3: int, c4: int, c5: int, c6: int,
                             r: Receiver, junk: seq<char>, rest: seq<char>)
    requires IsInt16(c1) && IsInt16(c2) && IsInt16(c3) && IsInt16(c4) && IsInt16(c5) && IsInt16(c6)
    requires |SendCommand(c1, c2, c3, c4, c5, c6)| <= NumChars + 1
    requires Idle(r) && StartMarker !in junk
    ensures var (r', left, parsed) := Loop(r, junk + SendCommand(c1, c2, c3, c4, c5, c6) + rest);
      && Idle(r') && left == rest
      && parsed == Some(Success(Command("Servo", [c1, c2, c3, c4, c5, c6])))
  {
    var cs := [c1, c2, c3, c4, c5, c6];
    SendCommandFrame(c1, c2, c3, c4, c5, c6);
    assert PlainName("Servo");
    FrameRoundTrip("Servo", cs, r, junk, rest);
  }

  /** Text whose characters are single bytes once encoded for the serial port. */
  predicate IsAscii(s: string) {
    forall i :: 0 <= i < |s| ==> s[i] as int < 128
  }

  /**
   * A `'b'` message whose typed direction is ASCII and holds no `>` or NUL
   * arrives as its body, cut to the 31 characters the buffer keeps.
   */
  lemma BCommandDelivered(direction: string, r: Receiver, rest: seq<char>)
    requires Idle(r)
    requires IsAscii(direction) && EndMarker !in direction && NUL !in direction
    ensures var body := "Servo, " + direction;
      var (r', left) := Recv(r, BCommand(direction) + rest);
      && left == rest && r'.newData
      && CStr(r'.received) == body[..Slot(|body|)]
  {
    var body := "Servo, " + direction;
    assert BCommand(direction) + rest == [] + [StartMarker] + body + [EndMarker] + rest;
    ReceiveFrameString(r, [], body, rest);
  }

  /** A body of just two fields makes `strtok` return NULL for the second integer field. */
  lemma TwoFieldsLackCommands(name: string, w: string)
    requires name != [] && Delimiter !in name && w != [] && Delimiter !in w
    ensures ParseData(name + [Delimiter] + w) == Failure(MissingCommand(2))
  {
    TokensOfWord(name, w, Delimiter);
    TokensOfWord(w, [], Delimiter);
    ParseDataReadsTokens(name + [Delimiter] + w);
  }

  /**
   * A `'d'` message carrying one number has two fields, so `parseData`
   * finds no second integer field: `strtok` returns NULL for `command2`.
   */
  lemma DCommandLacksFields(n: int)
    ensures ParseData("ServoDelay, " + IntToString(n)) == Failure(MissingCommand(2))
  {
    var w := [' '] + IntToString(n);
    assert forall ch :: ch in w ==> ch == ' ' || IsDigit(ch) || ch == '-';
    assert "ServoDelay, " + IntToString(n) == "ServoDelay" + [Delimiter] + w;
    TwoFieldsLackCommands("ServoDelay", w);
  }

  /** A frame whose body fits the buffer is received whole, after any noise, and its body parsed. */
  lemma FrameDelivered(name: string, payload: string, r: Receiver, junk: seq<char>, rest: seq<char>)
    requires EndMarker !in name + ", " + payload && NUL !in name + ", " + payload
    requires |Frame(name, payload)| <= NumChars + 1
    requires Idle(r) && StartMarker !in junk
    ensures var (r', left, parsed) := Loop(r, junk + Frame(name, payload) + rest);
      && Idle(r') && left == rest
      && parsed == Some(ParseData(name + ", " + payload))
  {
    var body := name + ", " + payload;
    FrameSplit(junk, name, payload, rest);
    assert body[..Slot(|body|)] == body by {
      assert |body| <= NumChars - 1;
    }
    LoopHandshake(r, junk, body, rest);
  }

  /** A frame of a plain name and one number is received whole and lacks the second integer field. */
  lemma NumberFrameRejected(name: string, n: int, r: Receiver, junk: seq<char>, rest: seq<char>)
    requires PlainName(name) && |Frame(name, IntToString(n))| <= NumChars + 1
    requires Idle(r) && StartMarker !in junk
    ensures var (r', left, parsed) := Loop(r, junk + Frame(name, IntToString(n)) + rest);
      && Idle(r') && left == rest
      && parsed == Some(Failure(MissingCommand(2)))
  {
    var x := IntToString(n);
    var w := [' '] + x;
    assert forall ch :: ch in w ==> ch == ' ' || IsDigit(ch) || ch == '-';
    SeparatorSplit(name, x);
    assert EndMarker !in name + ", " + x && NUL !in name + ", " + x by {
      assert name + ", " + x == name + [Delimiter] + w;
    }
    TwoFieldsLackCommands(name, w);
    FrameDelivered(name, x, r, junk, rest);
  }

  /**
   * A `'d'` message that fits the buffer is received whole, after any
   * noise, and rejected by `parseData`: the sketch finds no second integer
   * field and the receiver is idle again.
   */
  lemma DCommandRejected(n: int, r: Receiver, junk: seq<char>, rest: seq<char>)
    requires |DCommand(IntToString(n))| <= NumChars + 1
    requires Idle(r) && StartMarker !in junk
    ensures var (r', left, parsed) := Loop(r, junk + DCommand(IntToString(n)) + rest);
      && Idle(r') && left == rest
      && parsed == Some(Failure(MissingCommand(2)))
  {
    assert PlainName("ServoDelay");
    NumberFrameRejected("ServoDelay", n, r, junk, rest);
  }

  /** Fields each followed by the delimiter, as a cut message leaves them. */
  function Terminated(ws: seq<string>): string
  {
    if ws == [] then [] else ws[0] + [Delimiter] + Terminated(ws[1..])
  }

  /** The tokens of delimiter-terminated fields are the fields. */
  lemma {:induction false} TokensOfTerminated(ws: seq<string>)
    requires forall i :: 0 <= i < |ws| ==> ws[i] != [] && Delimiter !in ws[i]
    ensures Tokens(Terminated(ws), Delimiter) == ws
  {
    if ws != [] {
      TokensOfTerminated(ws[1..]);
      TokensOfWord(ws[0], Terminated(ws[1..]), Delimiter);
    }
  }

  /** Every padded number is a single non-empty field. */
  lemma {:induction false} PaddedFields(xs: seq<int>)
    ensures forall i :: 0 <= i < |Padded(xs)| ==> Padded(xs)[i] != [] && Delimiter !in Padded(xs)[i]
  {
    if xs != [] {
      PaddedFields(xs[1..]);
      PaddedField(xs[0]);
      assert Padded(xs) == [[' '] + IntToString(xs[0])] + Padded(xs[1..]);
    }
  }

  /** The width of numbers rendered each with a leading space and a trailing comma. */
  function RenderWidth(xs: seq<int>): nat
  {
    if xs == [] then 0 else |IntToString(xs[0])| + 2 + RenderWidth(xs[1..])
  }

  lemma {:induction false} TerminatedPaddedLength(xs: seq<int>)
    ensures |Terminated(Padded(xs))| == RenderWidth(xs)
  {
    if xs != [] {
      TerminatedPaddedLength(xs[1..]);
      assert Padded(xs)[1..] == Padded(xs[1..]);
    }
  }

  /** Prepending a padded number to terminated fields terminates it too. */
  lemma TerminatedCons(x: int, xs: seq<int>)
    ensures Terminated(Padded([x] + xs)) == ([' '] + IntToString(x)) + [Delimiter] + Terminated(Padded(xs))
  {
    assert ([x] + xs)[0] == x && ([x] + xs)[1..] == xs;
    var ps := Padded([x] + xs);
    assert ps == [[' '] + IntToString(x)] + Padded(xs);
    assert ps[0] == [' '] + IntToString(x) && ps[1..] == Padded(xs);
  }

  /** A direction is its padded leading numbers, each terminated, then its padded last number. */
  lemma {:induction false} DirectionSplitLast(cs: seq<int>)
    requires |cs| >= 1
    ensures [' '] + Direction(cs) == Terminated(Padded(cs[..|cs| - 1])) + ([' '] + IntToString(cs[|cs| - 1]))
    decreases |cs|
  {
    if |cs| == 1 {
      assert cs[..0] == [];
    } else {
      var w := [' '] + IntToString(cs[0]);
      var last := [' '] + IntToString(cs[|cs| - 1]);
      var tail := cs[1..];
      var front := cs[..|cs| - 1];
      assert front == [cs[0]] + tail[..|tail| - 1] && tail[|tail| - 1] == cs[|cs| - 1];
      var inner := Terminated(Padded(tail[..|tail| - 1]));
      assert [' '] + Direction(cs) == w + [Delimiter] + (inner + last) by {
        DirectionCons(cs);
        DirectionSplitLast(tail);
      }
      assert Terminated(Padded(front)) == w + [Delimiter] + inner by {
        TerminatedCons(cs[0], tail[..|tail| - 1]);
      }
    }
  }

  /** A body holds no end marker or NUL when its name and payload hold none. */
  lemma BodyClean(name: string, d: string)
    requires EndMarker !in name && NUL !in name && EndMarker !in d && NUL !in d
    ensures EndMarker !in name + ", " + d && NUL !in name + ", " + d
  {
    assert forall ch :: ch in name + ", " + d ==> ch in name || ch in ", " || ch in d;
  }

  /** A six-number body is its name and first five numbers, each terminated, then the last number. */
  lemma SixNumberFields(name: string, cs: seq<int>)
    requires PlainName(name) && |cs| == CommandCount
    ensures name + ", " + Direction(cs)
      == Terminated([name] + Padded(cs[..5])) + ([' '] + IntToString(cs[5]))
    ensures |Terminated([name] + Padded(cs[..5]))| == |name| + 1 + RenderWidth(cs[..5])
    ensures Tokens(Terminated([name] + Padded(cs[..5])), Delimiter) == [name] + Padded(cs[..5])
  {
    var fields := [name] + Padded(cs[..5]);
    assert fields[0] == name && fields[1..] == Padded(cs[..5]);
    assert Terminated(fields) == name + [Delimiter] + Terminated(Padded(cs[..5]));
    SeparatorSplit(name, Direction(cs));
    DirectionSplitLast(cs);
    TerminatedPaddedLength(cs[..5]);
    PaddedFields(cs[..5]);
    TokensOfTerminated(fields);
  }

  /**
   * A six-number message whose name and first five numbers fill the 31
   * usable cells up to the fifth comma is cut there: `parseData` finds no
   * sixth integer field, and the sketch passes NULL to `atoi` for
   * `command6`.
   */
  lemma CutBeforeSixthNumber(name: string, cs: seq<int>, r: Receiver, rest: seq<char>)
    requires PlainName(name) && |cs| == CommandCount
    requires |name| + 1 + RenderWidth(cs[..5]) == NumChars - 1
    requires Idle(r)
    ensures var (r', left, parsed) := Loop(r, Frame(name, Direction(cs)) + rest);
      && Idle(r') && left == rest
      && parsed == Some(Failure(MissingCommand(6)))
  {
    var d := Direction(cs);
    var body := name + ", " + d;
    var fields := [name] + Padded(cs[..5]);
    assert Frame(name, d) + rest == [] + [StartMarker] + body + [EndMarker] + rest by {
      FrameSplit([], name, d, rest);
      assert [] + Frame(name, d) == Frame(name, d);
    }
    DirectionShape(cs);
    BodyClean(name, d);
    SixNumberFields(name, cs);
    assert body[..Slot(|body|)] == Terminated(fields);
    assert ParseData(Terminated(fields)) == Failure(MissingCommand(6)) by {
      ParseDataReadsTokens(Terminated(fields));
    }
    LoopHandshake(r, [], body, rest);
  }

  /** Python renders a number from 100 to 999 in three digits. */
  lemma ThreeDigits(n: int)
    requires 100 <= n <= 999
    ensures |IntToString(n)| == 3
  {
    assert |NatToString(n / 10 / 10)| == 1;
    assert |NatToString(n / 10)| == 2;
  }

  /** The rendered width of five three-digit numbers. */
  lemma FiveNumbersWidth(a: int, b: int, c: int, e: int, f: int)
    requires |IntToString(a)| == 3 && |IntToString(b)| == 3 && |IntToString(c)| == 3
    requires |IntToString(e)| == 3 && |IntToString(f)| == 3
    ensures RenderWidth([a, b, c, e, f]) == 25
  {
    assert RenderWidth([f]) == 5 by {
      assert [f][1..] == [];
    }
    assert RenderWidth([e, f]) == 10 by {
      assert [e, f][1..] == [f];
    }
    assert RenderWidth([c, e, f]) == 15 by {
      assert [c, e, f][1..] == [e, f];
    }
    assert RenderWidth([b, c, e, f]) == 20 by {
      assert [b, c, e, f][1..] == [c, e, f];
    }
    assert [a, b, c, e, f][1..] == [b, c, e, f];
  }

  /**
   * Ordinary Braccio poses overflow the buffer: when the first five
   * numbers of `sendCommand` have three digits, its `Servo` message is cut
   * after the fifth comma and the sketch rejects it at the sixth integer
   * field, whatever the sixth number is.
   */
  lemma SendCommandCut(c1: int, c2: int, c3: int, c4: int, c5: int, c6: int, r: Receiver, rest: seq<char>)
    requires 100 <= c1 <= 999 && 100 <= c2 <= 999 && 100 <= c3 <= 999
    requires 100 <= c4 <= 999 && 100 <= c5 <= 999
    requires Idle(r)
    ensures var (r', left, parsed) := Loop(r, SendCommand(c1, c2, c3, c4, c5, c6) + rest);
      && Idle(r') && left == rest
      && parsed == Some(Failure(MissingCommand(6)))
  {
    var cs := [c1, c2, c3, c4, c5, c6];
    SendCommandFrame(c1, c2, c3, c4, c5, c6);
    assert RenderWidth(cs[..5]) == 25 by {
      ThreeDigitsWidth(c1, c2, c3, c4, c5);
      assert cs[..5] == [c1, c2, c3, c4, c5];
    }
    assert PlainName("Servo") && |"Servo"| == 5;
    CutBeforeSixthNumber("Servo", cs, r, rest);
  }

  lemma ThreeDigitsWidth(c1: int, c2: int, c3: int, c4: int, c5: int)
    requires 100 <= c1 <= 999 && 100 <= c2 <= 999 && 100 <= c3 <= 999
    requires 100 <= c4 <= 999 && 100 <= c5 <= 999
    ensures RenderWidth([c1, c2, c3, c4, c5]) == 25
  {
    ThreeDigits(c1);
    ThreeDigits(c2);
    ThreeDigits(c3);
    ThreeDigits(c4);
    ThreeDigits(c5);
    FiveNumbersWidth(c1, c2, c3, c4, c5);
  }

  /** The pose `sendCommand(180, 165, 180, 180, 180, 73)` is one of them. */
  lemma TypicalServoCommandCut(r: Receiver, rest: seq<char>)
    requires Idle(r)
    ensures var (r', left, parsed) := Loop(r, SendCommand(180, 165, 180, 180, 180, 73) + rest);
      && Idle(r') && left == rest
      && parsed == Some(Failure(MissingCommand(6)))
  {
    SendCommandCut(180, 165, 180, 180, 180, 73, r, rest);
  }
}
