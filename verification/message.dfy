/**
 * The Arduino side of the serial servo protocol (src/arduino/message.cpp):
 * frames `<...>` are received byte by byte into a fixed 32-character
 * buffer, and a received body is split on commas into a command name and
 * six integers.
 */
module Message {
  import opened Wrappers
  import opened CString
  import opened Fields

  /** `numChars`: size of `receivedChars`, `tempChars` and `messageFromPC`. */
  const NumChars: nat := 32
  const StartMarker: char := '<'
  const EndMarker: char := '>'

  /**
   * The receiver's state: the two `static` locals of
   * `recvWithStartEndMarkers`, the global `receivedChars` buffer and the
   * global `newData` handshake flag.
   */
  datatype Receiver = Receiver(inProgress: bool, ndx: nat, received: seq<char>, newData: bool)

  /** The write index stays inside the buffer, and is 0 between frames. */
  predicate Valid(r: Receiver) {
    && |r.received| == NumChars
    && r.ndx <= NumChars - 1
    && (!r.inProgress ==> r.ndx == 0)
  }

  /** The state at power-on: globals and statics are zero-initialised. */
  const Boot: Receiver := Receiver(false, 0, seq(NumChars, _ => NUL), false)

  /** A receiver waiting for a frame, whatever its buffer holds from earlier frames. */
  predicate Idle(r: Receiver) {
    Valid(r) && !r.inProgress && !r.newData
  }

  /** At power-on the receiver is waiting for a frame. */
  lemma BootIdle()
    ensures Idle(Boot) && CStr(Boot.received) == []
  {
  }

  /** One iteration of the receive loop on byte `c`. */
  function ReadByte(r: Receiver, c: char): (r': Receiver)
    requires Valid(r)
    ensures Valid(r')
    ensures !r.inProgress ==> r' == r.(inProgress := c == StartMarker)
    ensures r.inProgress && c == EndMarker ==>
      && r'.newData && !r'.inProgress && r'.ndx == 0
      && r'.received == r.received[r.ndx := NUL]
    ensures r.inProgress && c != EndMarker ==>
      && r'.inProgress && r'.newData == r.newData
      && r'.received == r.received[r.ndx := c]
      && r'.ndx == if r.ndx + 1 >= NumChars then NumChars - 1 else r.ndx + 1
  {
    if r.inProgress then
      if c != EndMarker then
        var ndx := r.ndx + 1;
        r.(received := r.received[r.ndx := c], ndx := if ndx >= NumChars then NumChars - 1 else ndx)
      else
        r.(received := r.received[r.ndx := NUL], inProgress := false, ndx := 0, newData := true)
    else if c == StartMarker then
      r.(inProgress := true)
    else
      r
  }

  /**
   * `recvWithStartEndMarkers`: consume bytes while some are available and
   * no frame is waiting to be handled.  Returns the new state and the bytes
   * left unread in the serial buffer.
   */
  function Recv(r: Receiver, input: seq<char>): (res: (Receiver, seq<char>))
    requires Valid(r)
    ensures Valid(res.0)
    ensures |res.1| <= |input| && res.1 == input[|input| - |res.1|..]
    ensures r.newData ==> res == (r, input)
    ensures res.0.newData || res.1 == []
    decreases |input|
  {
    if input == [] || r.newData then (r, input)
    else Recv(ReadByte(r, input[0]), input[1..])
  }

  /** Reading in two pieces is reading at once, unless the first piece completes a frame. */
  lemma {:induction false} RecvAppend(r: Receiver, a: seq<char>, b: seq<char>)
    requires Valid(r)
    requires !Recv(r, a).0.newData
    ensures Recv(r, a + b) == Recv(Recv(r, a).0, b)
    decreases |a|
  {
    if a == [] {
      assert a + b == b;
    } else {
      assert (a + b)[0] == a[0];
      assert (a + b)[1..] == a[1..] + b;
      RecvAppend(ReadByte(r, a[0]), a[1..], b);
    }
  }

  /** Between frames every byte other than the start marker is discarded. */
  lemma {:induction false} IdleDiscards(r: Receiver, junk: seq<char>)
    requires Idle(r)
    requires StartMarker !in junk
    ensures Recv(r, junk) == (r, [])
  {
    if junk != [] {
      IdleDiscards(r, junk[1..]);
    }
  }

  /** Where the body byte number `p` of a frame lands: overflow bytes all land in the last cell. */
  function Slot(p: nat): nat {
    if p < NumChars - 1 then p else NumChars - 1
  }

  /**
   * Inside a frame every byte up to the end marker is stored, a second
   * start marker included; the end marker terminates the string, ends the
   * frame, rewinds the index and raises `newData`.
   */
  lemma {:induction false} FrameBody(r: Receiver, body: seq<char>, rest: seq<char>)
    requires Valid(r) && r.inProgress && !r.newData
    requires EndMarker !in body
    ensures var (r', left) := Recv(r, body + [EndMarker] + rest);
      && left == rest
      && r'.newData && !r'.inProgress && r'.ndx == 0
      && r'.received[Slot(r.ndx + |body|)] == NUL
      && (forall p :: r.ndx <= p < Slot(r.ndx + |body|) ==> r'.received[p] == body[p - r.ndx])
      && (forall p :: 0 <= p < r.ndx ==> r'.received[p] == r.received[p])
    decreases |body|
  {
    var input := body + [EndMarker] + rest;
    if body == [] {
      assert input == [EndMarker] + rest;
      assert input[1..] == rest;
    } else {
      assert input[0] == body[0];
      assert input[1..] == body[1..] + [EndMarker] + rest;
      var r1 := ReadByte(r, body[0]);
      FrameBody(r1, body[1..], rest);
      var r' := Recv(r, input).0;
      assert r' == Recv(r1, body[1..] + [EndMarker] + rest).0;
      if r.ndx + 1 >= NumChars {
        assert Slot(r.ndx + |body|) == NumChars - 1 == r1.ndx;
      } else {
        assert r1.ndx == r.ndx + 1;
        assert Slot(r1.ndx + |body| - 1) == Slot(r.ndx + |body|);
        forall p | r.ndx <= p < Slot(r.ndx + |body|)
          ensures r'.received[p] == body[p - r.ndx]
        {
          if p > r.ndx {
            assert body[1..][p - r1.ndx] == body[p - r.ndx];
          }
        }
      }
    }
  }

  /** Noise and the start marker are consumed, leaving a frame in progress at index 0. */
  lemma {:induction false} RecvSkipsNoise(r: Receiver, junk: seq<char>, frame: seq<char>)
    requires Idle(r)
    requires StartMarker !in junk
    ensures Recv(r, junk + [StartMarker] + frame) == Recv(r.(inProgress := true), frame)
  {
    var tail := [StartMarker] + frame;
    assert Recv(r, junk + tail) == Recv(r, tail) by {
      IdleDiscards(r, junk);
      RecvAppend(r, junk, tail);
    }
    assert Recv(r, tail) == Recv(r.(inProgress := true), frame) by {
      assert tail[0] == StartMarker && tail[1..] == frame;
      assert ReadByte(r, StartMarker) == r.(inProgress := true);
    }
    assert junk + [StartMarker] + frame == junk + tail;
  }

  /**
   * A whole frame received from an idle state: noise before the start
   * marker is dropped, and the buffer then holds the first
   * `min(|body|, 31)` body bytes followed by NUL.
   */
  lemma {:induction false} ReceiveFrame(r: Receiver, junk: seq<char>, body: seq<char>, rest: seq<char>)
    requires Idle(r)
    requires StartMarker !in junk && EndMarker !in body
    ensures var (r', left) := Recv(r, junk + [StartMarker] + body + [EndMarker] + rest);
      && left == rest
      && Valid(r') && r'.newData && !r'.inProgress
      && r'.received[..Slot(|body|)] == body[..Slot(|body|)]
      && r'.received[Slot(|body|)] == NUL
  {
    var frame := body + [EndMarker] + rest;
    assert junk + [StartMarker] + body + [EndMarker] + rest == junk + [StartMarker] + frame;
    RecvSkipsNoise(r, junk, frame);
    var r1 := r.(inProgress := true);
    FrameBody(r1, body, rest);
    var r' := Recv(r1, frame).0;
    assert r'.received[..Slot(|body|)] == body[..Slot(|body|)] by {
      forall p | 0 <= p < Slot(|body|)
        ensures r'.received[p] == body[p]
      {
      }
    }
  }

  /** The C string a frame delivers: its body, cut to the 31 characters that fit. */
  lemma {:induction false} ReceiveFrameString(r: Receiver, junk: seq<char>, body: seq<char>, rest: seq<char>)
    requires Idle(r)
    requires StartMarker !in junk && EndMarker !in body && NUL !in body
    ensures var (r', left) := Recv(r, junk + [StartMarker] + body + [EndMarker] + rest);
      && left == rest && r'.newData && !r'.inProgress
      && CStr(r'.received) == body[..Slot(|body|)]
  {
    ReceiveFrame(r, junk, body, rest);
    var r' := Recv(r, junk + [StartMarker] + body + [EndMarker] + rest).0;
    var s := body[..Slot(|body|)];
    assert forall c :: c in s ==> c in body;
    CStrOfTerminated(r'.received, s);
  }

  /**
   * One pass of `loop`: receive, and if a frame is complete copy it to
   * `tempChars`, parse the copy and lower `newData`.  `receivedChars`
   * itself is left as the receiver wrote it.
   */
  function Loop(r: Receiver, input: seq<char>): (res: (Receiver, seq<char>, Option<Result<Command, ParseError>>))
    requires Valid(r)
    ensures Valid(res.0) && !res.0.newData
    ensures res.0.received == Recv(r, input).0.received
    ensures res.1 == Recv(r, input).1
    ensures res.2.Some? <==> Recv(r, input).0.newData
    ensures res.2.Some? ==> res.2.value == ParseData(CStr(res.0.received))
  {
    var (r1, rest) := Recv(r, input);
    if r1.newData then
      (r1.(newData := false), rest, Some(ParseData(CStr(r1.received))))
    else
      (r1, rest, None)
  }

  /** A pass of `loop` that handles a frame leaves the receiver idle again, ready for the next. */
  lemma {:induction false} LoopHandshake(r: Receiver, junk: seq<char>, body: seq<char>, rest: seq<char>)
    requires Idle(r)
    requires StartMarker !in junk && EndMarker !in body && NUL !in body
    ensures var (r', left, parsed) := Loop(r, junk + [StartMarker] + body + [EndMarker] + rest);
      && Idle(r') && left == rest
      && parsed == Some(ParseData(body[..Slot(|body|)]))
  {
    ReceiveFrameString(r, junk, body, rest);
  }
}
