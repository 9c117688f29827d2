/** Message buffers (FreeRTOS/stream_buffer.c): a ring of bytes with one writer and one reader, who may
    come in between any two steps of the other. A message is its length in four bytes, then its data. The
    writer looks for room, writes the length, and writes the data; the reader looks for bytes, reads the
    length, and reads the data or puts the length back. What is written or read shows when `head` or `tail`
    moves. */
module MessageBuffer {

  const LENGTH_BYTES: nat := 4

  type Message = seq<int>

  /** A place in a ring, for indices that are less than one turn too large */
  function Turn(i: nat, length: nat): nat { if i >= length then i - length else i }

  /** `n` bytes from `tail` on */
  function Bytes(buffer: seq<int>, tail: nat, n: nat): (b: seq<int>)
    requires tail < |buffer| && n <= |buffer|
    ensures |b| == n && forall i {:trigger b[i]} :: 0 <= i < n ==> b[i] == buffer[Turn(tail + i, |buffer|)]
  {
    seq(n, i requires 0 <= i < n => buffer[Turn(tail + i, |buffer|)])
  }

  /** A number in four bytes, the most significant first, and back */
  function LengthCode(n: nat): seq<int> { [n / 0x100_0000 % 256, n / 0x1_0000 % 256, n / 256 % 256, n % 256] }

  function CodedLength(b: seq<int>): int
    requires |b| == LENGTH_BYTES
  {
    b[0] * 0x100_0000 + b[1] * 0x1_0000 + b[2] * 256 + b[3]
  }

  lemma LengthRoundTrip(n: nat)
    requires n < 0x1_0000_0000
    ensures CodedLength(LengthCode(n)) == n
  {
    assert n / 256 / 256 == n / 0x1_0000 && n / 0x1_0000 / 256 == n / 0x100_0000;
  }

  function Coded(messages: seq<Message>): seq<int> {
    if messages == [] then [] else LengthCode(|messages[0]|) + messages[0] + Coded(messages[1..])
  }

  lemma {:induction false} CodedAppend(messages: seq<Message>, m: Message)
    ensures Coded(messages + [m]) == Coded(messages) + (LengthCode(|m|) + m)
  {
    if messages == [] {
      assert ([] + [m])[1..] == [];
    } else {
      CodedAppend(messages[1..], m);
      assert (messages + [m])[1..] == messages[1..] + [m];
    }
  }

  lemma {:induction false} CodedSize(messages: seq<Message>)
    ensures messages != [] ==> |Coded(messages)| >= LENGTH_BYTES + |messages[0]|
  {
  }

  datatype Move = Writer | Reader(capacity: nat)

  /** How far a send has got */
  datatype Writing = Idle | Sized(message: Message) | LengthWritten(message: Message)

  /** How far a receive has got: the bytes it saw; then where the length was, what it is, and the bytes that
      were behind it */
  datatype Reading = Resting | Looked(available: nat, capacity: nat)
    | LengthRead(original: nat, next: nat, available: nat, capacity: nat)

  // What a conversation looks like from outside: the whole messages in the buffer, how far both sides have got, the room, what
  // was received, and how many messages were started.

  datatype Talk = Talk(messages: seq<Message>, writing: Writing, reading: Reading, free: nat, received: seq<Message>, started: nat)

  predicate Backing(r: Reading) { r.LengthRead? && r.next > r.capacity }

  /** The writer starts a message if there is room for it and its length, or seems to be; then it writes the length, and then the
      message. */
  ghost predicate WriterTurn(outgoing: seq<Message>, a: Talk, b: Talk) {
    match a.writing
    case Idle =>
      b == if a.started < |outgoing| && |outgoing[a.started]| + LENGTH_BYTES <= a.free + if Backing(a.reading) then LENGTH_BYTES else 0
           then a.(writing := Sized(outgoing[a.started]), started := a.started + 1) else a
    case Sized(m) => LENGTH_BYTES <= a.free && b == a.(writing := LengthWritten(m), free := a.free - LENGTH_BYTES)
    case LengthWritten(m) => |m| <= a.free && b == a.(writing := Idle, messages := a.messages + [m], free := a.free - |m|)
  }

  /** The reader waits for a whole message; then it reads its length, and then the message, or leaves it if there is too little room
      for it. */
  ghost predicate ReaderTurn(capacity: nat, a: Talk, b: Talk) {
    match a.reading
    case Resting =>
      if a.messages == [] then b == a else b == a.(reading := b.reading) && b.reading.Looked? && b.reading.capacity == capacity
    case Looked(_, room) =>
      && a.messages != [] && b == a.(reading := b.reading, free := a.free + if Backing(b.reading) then 0 else LENGTH_BYTES)
      && b.reading.LengthRead? && b.reading.next == |a.messages[0]| && b.reading.capacity == room
    case LengthRead(_, _, _, room) =>
      && a.messages != []
      && b == if |a.messages[0]| <= room
              then a.(reading := Resting, messages := a.messages[1..], received := a.received + [a.messages[0]], free := a.free + |a.messages[0]|)
              else a.(reading := Resting)
  }

  ghost predicate Turned(outgoing: seq<Message>, turn: Move, a: Talk, b: Talk) {
    match turn
    case Writer => WriterTurn(outgoing, a, b)
    case Reader(capacity) => ReaderTurn(capacity, a, b)
  }

  /** The turn writes over something that has not been read. */
  ghost predicate Breaks(turn: Move, a: Talk) {
    turn.Writer? && ((a.writing.Sized? && a.free < LENGTH_BYTES) || (a.writing.LengthWritten? && a.free < |a.writing.message|))
  }

  /** The writer finds room only because the reader has moved past a length that it is going to put back. */
  ghost predicate Misleads(outgoing: seq<Message>, turn: Move, a: Talk) {
    && turn.Writer? && a.writing.Idle? && a.started < |outgoing| && Backing(a.reading)
    && a.free < |outgoing[a.started]| + LENGTH_BYTES <= a.free + LENGTH_BYTES
  }

  ghost predicate SomeMisleads(outgoing: seq<Message>, turns: seq<Move>, talks: seq<Talk>) {
    exists i {:trigger turns[i]} :: 0 <= i < |turns| && i + 1 < |talks| && Misleads(outgoing, turns[i], talks[i])
  }

  ghost predicate AllTurned(outgoing: seq<Message>, turns: seq<Move>, talks: seq<Talk>) {
    forall i {:trigger turns[i]} :: 0 <= i < |turns| && i + 1 < |talks| ==> Turned(outgoing, turns[i], talks[i], talks[i + 1])
  }

  lemma NoTurns(outgoing: seq<Message>, turns: seq<Move>, talks: seq<Talk>)
    requires |talks| == 1
    ensures AllTurned(outgoing, turns, talks) && !SomeMisleads(outgoing, turns, talks)
  {
  }

  lemma MoreTurns(outgoing: seq<Message>, turns: seq<Move>, talks: seq<Talk>, next: Talk)
    requires AllTurned(outgoing, turns, talks) && 0 < |talks| <= |turns| && Turned(outgoing, turns[|talks| - 1], talks[|talks| - 1], next)
    ensures AllTurned(outgoing, turns, talks + [next])
    ensures SomeMisleads(outgoing, turns, talks + [next]) <==>
              SomeMisleads(outgoing, turns, talks) || Misleads(outgoing, turns[|talks| - 1], talks[|talks| - 1])
  {
    hide Turned, Misleads;
    var i := |talks| - 1;
    assert Misleads(outgoing, turns[i], talks[i]) ==> SomeMisleads(outgoing, turns, talks + [next]);
    forall j {:trigger turns[j]} | 0 <= j < |turns| && j + 1 < |talks| && Misleads(outgoing, turns[j], talks[j])
      ensures SomeMisleads(outgoing, turns, talks + [next])
    {
      assert (talks + [next])[j] == talks[j];
    }
  }

  class MessageBuffer {
    const length: nat
    const buffer: array<int>
    var head: nat
    var tail: nat
    /** what writer and reader keep in their own variables */
    var writing: Writing
    var reading: Reading
    /** whole messages in the buffer */
    ghost var messages: seq<Message>

    predicate Ring()
      reads `head, `tail
    {
      length > 0 && buffer.Length == length && head < length && tail < length
    }

    /** prvBytesInBuffer */
    function BytesInBuffer(): (n: nat)
      requires Ring()
      reads `head, `tail
      ensures n < length && Turn(tail + n, length) == head
    {
      var count := length + head - tail;
      if count >= length then count - length else count
    }

    /** xStreamBufferSpacesAvailable. One byte always stays free. */
    function SpacesAvailable(): (n: nat)
      requires Ring()
      reads `head, `tail
      ensures n + BytesInBuffer() == length - 1
    {
      var space := length + tail - head - 1;
      if space >= length then space - length else space
    }

    /** The reader has moved `tail` past a length that it is going to put back. */
    predicate TooSmall()
      reads `reading
    {
      reading.LengthRead? && reading.next > reading.capacity
    }

    /** Where the messages in the buffer begin, whatever `tail` says meanwhile */
    function Begin(): nat
      reads `tail, `reading
    {
      if TooSmall() then reading.original else tail
    }

    predicate Placed()
      reads `head, `tail, `reading
    {
      Ring() && Begin() < length
    }

    /** How many bytes there are from there on, and how many are really free */
    function Used(): (n: nat)
      requires Placed()
      reads `head, `tail, `reading
      ensures n < length
    {
      Distance(Begin(), head, length)
    }

    function Free(): (n: nat)
      requires Placed()
      reads `head, `tail, `reading
    {
      length - 1 - Used()
    }

    ghost function Unread(): seq<int>
      requires Placed()
      reads `head, `tail, `reading, buffer
    {
      Bytes(buffer[..], Begin(), Used())
    }

    /** What should be in the buffer */
    ghost function Expected(): seq<int>
      reads `messages, `writing, `reading
    {
      Stored(messages, reading.LengthRead? && reading.next <= reading.capacity) + (if writing.LengthWritten? then LengthCode(|writing.message|) else [])
    }

    /** What the reader knows is so. */
    ghost predicate Known()
      requires Placed()
      reads `head, `tail, `reading, `messages
    {
      match reading
      case Resting => true
      case Looked(available, capacity) => messages != [] && LENGTH_BYTES + |messages[0]| <= available <= Used()
      case LengthRead(original, next, available, capacity) =>
        && messages != [] && next == |messages[0]| <= available && available + (if TooSmall() then LENGTH_BYTES else 0) <= Used()
        && original < length && tail == Turn(original + LENGTH_BYTES, length)
    }

    /** What prvBytesInBuffer sees */
    lemma InBuffer()
      requires Placed()
      ensures !TooSmall() ==> BytesInBuffer() == Used()
      ensures TooSmall() && tail == Turn(reading.original + LENGTH_BYTES, length) && LENGTH_BYTES <= Used() ==> BytesInBuffer() == Used() - LENGTH_BYTES
    {
    }

    ghost predicate Valid()
      reads this, buffer
    {
      && Placed() && LENGTH_BYTES < length < 0x1_0000_0000 && Unread() == Expected() && Known()
      && (forall m {:trigger m in messages} :: m in messages ==> 0 < |m| < 0x1_0000_0000)
      && (!writing.Idle? ==> 0 < |writing.message| && LENGTH_BYTES + |writing.message| < length)
    }

    /** The send that is under way has room. */
    ghost predicate Fits()
      requires Placed()
      reads `head, `tail, `reading, `writing
    {
      match writing
      case Idle => true
      case Sized(m) => LENGTH_BYTES + |m| <= Free()
      case LengthWritten(m) => |m| <= Free()
    }

    /** xMessageBufferCreate: the ring has one byte more than was asked for. */
    constructor (size: nat)
      requires LENGTH_BYTES < size && size + 1 < 0x1_0000_0000
      ensures Valid() && messages == [] && writing == Idle && reading == Resting && SpacesAvailable() == size && length == size + 1 && head == 0
    {
      length := size + 1;
      buffer := new int[size + 1];
      head, tail := 0, 0;
      messages, writing, reading := [], Idle, Resting;
    }

    /** prvWriteBytesToBuffer: at most two stretches of memory, and `head` moves last. */
    method WriteBytes(data: seq<int>)
      requires Ring() && 0 < |data| < length
      modifies buffer, `head
      ensures Ring() && head == Turn(old(head) + |data|, length) && Overlaid(old(buffer[..]), buffer[..], old(head), data)
    {
      var nextHead := head;
      var first := if length - nextHead < |data| then length - nextHead else |data|;
      forall i | 0 <= i < first {
        buffer[nextHead + i] := data[i];
      }
      if |data| > first {
        forall i | 0 <= i < |data| - first {
          buffer[i] := data[first + i];
        }
      }
      nextHead := nextHead + |data|;
      if nextHead >= length {
        nextHead := nextHead - length;
      }
      head := nextHead;
    }

    /** prvReadBytesFromBuffer */
    method ReadBytes(maxCount: nat, bytesAvailable: nat) returns (data: seq<int>)
      requires Ring() && bytesAvailable <= BytesInBuffer()
      modifies `tail
      ensures Ring() && |data| == (if bytesAvailable < maxCount then bytesAvailable else maxCount)
      ensures data == Bytes(buffer[..], old(tail), |data|) && tail == Turn(old(tail) + |data|, length)
      ensures BytesInBuffer() == old(BytesInBuffer()) - |data|
    {
      var count := if bytesAvailable < maxCount then bytesAvailable else maxCount;
      data := [];
      if count > 0 {
        var nextTail := tail;
        var first := if length - nextTail < count then length - nextTail else count;
        data := buffer[nextTail..nextTail + first];
        if count > first {
          data := data + buffer[..count - first];
        }
        nextTail := nextTail + count;
        if nextTail >= length {
          nextTail := nextTail - length;
        }
        tail := nextTail;
      }
    }

    // --- the writer --------------------------------------------------------------------------

    /** xStreamBufferSend looks for room. It is misled exactly if the reader has moved `tail` past a length
        that it is going to put back, and the message needs the four bytes of that length. */
    method Size(m: Message) returns (started: bool)
      requires Valid() && writing.Idle? && 0 < |m| && |m| + LENGTH_BYTES < 0x1_0000_0000
      modifies `writing
      ensures Valid() && writing == if started then Sized(m) else Idle
      ensures started <==> |m| + LENGTH_BYTES <= old(Free()) + if TooSmall() then LENGTH_BYTES else 0
      ensures Fits() <==> !(TooSmall() && Free() < |m| + LENGTH_BYTES <= Free() + LENGTH_BYTES)
    {
      InBuffer();
      var space := SpacesAvailable();
      started := false;
      if space == 0 {
      } else if space >= |m| + LENGTH_BYTES {
        started := true;
        writing := Sized(m);
      }
    }

    /** prvWriteMessageToBuffer writes the length. */
    method WriteLength()
      requires Valid() && writing.Sized?
      modifies buffer, `head, `writing
      ensures writing == LengthWritten(old(writing.message)) && Placed()
      ensures Valid() <==> LENGTH_BYTES <= old(Free())
      ensures Used() == Turn(old(Used()) + LENGTH_BYTES, length)
    {
      hide Bytes, Stored, Coded, LengthCode, Overlaid, Distance, Turn;
      ghost var before, head0, expected := buffer[..], head, Expected();
      var m := writing.message;
      CodeSize(|m|);
      WriteBytes(LengthCode(|m|));
      writing := LengthWritten(m);
      WrittenExactly(before, buffer[..], Begin(), old(Used()), head0, LengthCode(|m|), expected);
      assert Expected() == expected + LengthCode(|m|);
    }

    /** And the data. */
    method WriteData()
      requires Valid() && writing.LengthWritten?
      modifies buffer, `head, `writing, `messages
      ensures writing == Idle && messages == old(messages) + [old(writing.message)] && Placed()
      ensures Valid() <==> |old(writing.message)| <= old(Free())
      ensures Used() == Turn(old(Used()) + |old(writing.message)|, length)
    {
      hide Bytes, Stored, Coded, LengthCode, Overlaid, Distance, Turn;
      ghost var before, head0, expected, partly := buffer[..], head, Expected(), reading.LengthRead? && reading.next <= reading.capacity;
      var m := writing.message;
      WriteBytes(m);
      StoredAppend(messages, m, partly);
      messages := messages + [m];
      writing := Idle;
      WrittenExactly(before, buffer[..], Begin(), old(Used()), head0, m, expected);
      assert Expected() == expected + m;
    }

    // --- the reader --------------------------------------------------------------------------

    /** xStreamBufferReceive looks for bytes: more than a length means that there is a whole message. */
    method Look(capacity: nat) returns (some: bool)
      requires Valid() && reading == Resting
      modifies `reading
      ensures Valid() && Free() == old(Free()) && (some <==> messages != []) && (some <==> reading.Looked?) && (some ==> reading.capacity == capacity)
      ensures !some ==> reading == Resting && BytesInBuffer() == if writing.LengthWritten? then LENGTH_BYTES else 0
    {
      InBuffer();
      var bytesAvailable := BytesInBuffer();
      Visible(messages, writing, Unread());
      some := bytesAvailable > LENGTH_BYTES;
      if some {
        CodedSize(messages);
        reading := Looked(bytesAvailable, capacity);
      }
    }

    /** prvReadMessageFromBuffer reads the length. */
    method ReadLength()
      requires Valid() && reading.Looked?
      modifies `tail, `reading
      ensures Valid() && messages != [] && reading == LengthRead(old(tail), |messages[0]|, old(reading.available) - LENGTH_BYTES, old(reading.capacity))
      ensures Free() == old(Free()) + if TooSmall() then 0 else LENGTH_BYTES
    {
      hide Bytes, Coded, LengthCode, Distance, Turn;
      InBuffer();
      ghost var unread, expected := Unread(), Expected();
      var originalTail, available, capacity := tail, reading.available, reading.capacity;
      var code := ReadBytes(LENGTH_BYTES, available);
      Read(buffer[..], originalTail, |unread|, LENGTH_BYTES, code);
      FirstMessage(messages, writing, unread, code, Bytes(buffer[..], tail, |unread| - LENGTH_BYTES));
      reading := LengthRead(originalTail, CodedLength(code), available - LENGTH_BYTES, capacity);
      Unlengthed(messages, writing, unread, code, Bytes(buffer[..], tail, |unread| - LENGTH_BYTES));
      InBuffer();
    }

    /** It reads the message, or puts the length back if there is too little room for the message. */
    method FinishReceive() returns (received: Message)
      requires Valid() && reading.LengthRead?
      modifies `tail, `reading, `messages
      ensures Valid() && reading == Resting && old(messages) != []
      ensures if old(TooSmall()) then received == [] && messages == old(messages) && tail == old(reading.original)
              else received == old(messages)[0] && messages == old(messages)[1..]
      ensures Free() == old(Free()) + |received|
    {
      hide Bytes, Coded, LengthCode, Distance, Turn;
      ghost var unread, restored := Unread(), TooSmall();
      var next, available := reading.next, reading.available;
      if next > reading.capacity {
        tail := reading.original;
        next := 0;
      }
      reading := Resting;
      InBuffer();
      received := ReadBytes(next, available);
      InBuffer();
      if !restored {
        Read(buffer[..], old(tail), |unread|, |messages[0]|, received);
        Unfirst(messages, writing, unread, received, Bytes(buffer[..], tail, |unread| - |received|));
        LaterMessages(messages);
        messages := messages[1..];
        assert Unread() == Expected();
      }
    }

    // --- whole calls -------------------------------------------------------------------------

    /** xMessageBufferSend without an interruption */
    method Send(m: Message) returns (sent: bool)
      requires Valid() && writing.Idle? && reading == Resting && 0 < |m| && |m| + LENGTH_BYTES < 0x1_0000_0000
      modifies this, buffer
      ensures Valid() && writing == Idle && reading == Resting && (sent <==> |m| + LENGTH_BYTES <= old(Free()))
      ensures messages == if sent then old(messages) + [m] else old(messages)
      ensures Free() == old(Free()) - if sent then LENGTH_BYTES + |m| else 0
    {
      sent := Size(m);
      if sent {
        WriteLength();
        WriteData();
      }
    }

    /** xMessageBufferReceive without an interruption: one whole message, the oldest, or nothing. A message
        that is too long for the caller stays, and one of which only the length is there does not show. */
    method Receive(capacity: nat) returns (received: Message)
      requires Valid() && reading == Resting
      modifies `tail, `reading, `messages
      ensures Valid() && reading == Resting
      ensures if old(messages) != [] && |old(messages)[0]| <= capacity then
                received == old(messages)[0] && messages == old(messages)[1..]
              else received == [] && messages == old(messages) && tail == old(tail)
      ensures old(Fits()) ==> Fits()
    {
      received := [];
      var some := Look(capacity);
      if some {
        ReadLength();
        received := FinishReceive();
      }
    }

    /** xStreamBufferNextMessageLengthBytes, which does with `tail` what a receive without any room does.
        `sound` tells whether its assertion holds, that there is either nothing or a whole message: it fails
        exactly if the length of a message is all there is. */
    method NextMessageLength() returns (sound: bool, n: int)
      requires Valid() && reading == Resting
      modifies `tail, `reading, `messages
      ensures Valid() && tail == old(tail) && reading == Resting && messages == old(messages)
      ensures n == if messages == [] then 0 else |messages[0]|
      ensures sound <==> !(messages == [] && writing.LengthWritten?)
      ensures old(Fits()) ==> Fits()
    {
      sound, n := true, 0;
      var some := Look(0);
      if some {
        ReadLength();
        assert messages[0] in messages;
        n := reading.next;
        var nothing := FinishReceive();
      } else {
        sound := BytesInBuffer() == 0;
      }
    }

    /** The shortest case: only the length of a message has been written. */
    method LengthAlone() returns (sound: bool)
      requires Valid() && messages == [] && writing == Idle && reading == Resting && length == 13
      modifies this, buffer
      ensures !sound
    {
      var started := Size([1]);
      WriteLength();
      var n;
      sound, n := NextMessageLength();
    }

    // --- runs --------------------------------------------------------------------------------

    ghost function Now(received: seq<Message>, started: nat): Talk
      requires Placed()
      reads this
    {
      Talk(messages, writing, reading, Free(), received, started)
    }

    ghost function InFlight(): seq<Message>
      reads `writing
    {
      if writing.Idle? then [] else [writing.message]
    }

    /** The next step of the writer. `misled` tells whether it found room that the reader is going to take
        back, and `broken` whether it has written over what was not read yet. */
    method WriterStep(outgoing: seq<Message>, started0: nat, ghost received: seq<Message>) returns (started: nat, misled: bool, broken: bool)
      requires Valid() && started0 <= |outgoing|
      requires forall m {:trigger m in outgoing} :: m in outgoing ==> 0 < |m| && |m| + LENGTH_BYTES < 0x1_0000_0000
      modifies `head, `writing, `messages, buffer
      ensures broken <==> !Valid()
      ensures reading == old(reading) && started0 <= started <= |outgoing|
      ensures messages + InFlight() == old(messages + InFlight()) + outgoing[started0..started] && started <= started0 + 1
      ensures misled <==> old(writing.Idle? && started0 < |outgoing| && TooSmall()
                              && Free() < |outgoing[started0]| + LENGTH_BYTES <= Free() + LENGTH_BYTES)
      ensures old(Fits()) && !misled ==> !broken && Fits()
      ensures Placed() && (broken <==> Breaks(Writer, old(Now(received, started0))))
      ensures !broken ==> WriterTurn(outgoing, old(Now(received, started0)), Now(received, started))
    {
      hide Stored, Coded, LengthCode, Bytes, Distance;
      started, misled, broken := started0, false, false;
      match writing
      case Idle =>
        if started < |outgoing| {
          assert outgoing[started] in outgoing;
          misled := TooSmall() && Free() < |outgoing[started]| + LENGTH_BYTES <= Free() + LENGTH_BYTES;
          var begun := Size(outgoing[started]);
          if begun {
            started := started + 1;
          }
        }
      case Sized(m) =>
        broken := Free() < LENGTH_BYTES;
        WriteLength();
      case LengthWritten(m) =>
        broken := Free() < |m|;
        WriteData();
    }

    /** The next step of the reader */
    method ReaderStep(capacity: nat, ghost received0: seq<Message>, ghost started: nat) returns (received: Message)
      requires Valid()
      modifies `tail, `reading, `messages
      ensures Valid() && (old(Fits()) ==> Fits())
      ensures if received == [] then messages == old(messages) else old(messages) == [received] + messages
      ensures ReaderTurn(capacity, old(Now(received0, started)), Now(if received == [] then received0 else received0 + [received], started))
    {
      hide Stored, Coded, LengthCode, Bytes, Distance;
      received := [];
      match reading
      case Resting =>
        var some := Look(capacity);
      case Looked(_, _) =>
        ReadLength();
      case LengthRead(_, _, _, _) =>
        assert messages[0] in messages;
        received := FinishReceive();
    }

    /** One turn of a conversation */
    method TakeTurn(outgoing: seq<Message>, turn: Move, received0: seq<Message>, started0: nat, misled0: bool)
        returns (received: seq<Message>, started: nat, misled: bool, broken: bool)
      requires Valid() && Placed() && (misled0 || Fits()) && started0 <= |outgoing|
      requires received0 + messages + InFlight() == outgoing[..started0]
      requires forall m {:trigger m in outgoing} :: m in outgoing ==> 0 < |m| && |m| + LENGTH_BYTES < 0x1_0000_0000
      modifies this, buffer
      ensures (broken <==> !Valid()) && Placed() && started <= |outgoing| && (misled || (!broken && Fits()))
      ensures received + messages + InFlight() == outgoing[..started]
      ensures misled <==> misled0 || Misleads(outgoing, turn, old(Now(received0, started0)))
      ensures if broken then !Misleads(outgoing, turn, old(Now(received0, started0))) && Breaks(turn, old(Now(received0, started0)))
              else Turned(outgoing, turn, old(Now(received0, started0)), Now(received, started))
    {
      hide Valid, Fits, Placed, Stored, Coded, WriterTurn, ReaderTurn;
      received, misled, broken := received0, misled0, false;
      ghost var before, before1 := messages, InFlight();
      match turn {
        case Writer =>
          var more;
          started, more, broken := WriterStep(outgoing, started0, received);
          misled := misled || more;
          assert received + messages + InFlight() == received + (messages + InFlight()) == (received + before + before1) + outgoing[started0..started];
          assert outgoing[..started] == outgoing[..started0] + outgoing[started0..started];
        case Reader(capacity) =>
          started := started0;
          var m := ReaderStep(capacity, received, started);
          PlacedNow();
          if m != [] {
            received := received + [m];
            assert received + messages + InFlight() == received0 + before + InFlight();
          }
      }
    }

    /** However the two take turns, between any two of their steps: until the writer writes over something,
        what was received, what is in the buffer, and the message being sent are, in this order, the messages
        the writer started to send. It only ever writes over something after it was misled. `talks` tells what every
        turn does, up to one that writes over something. */
    method Converse(outgoing: seq<Message>, turns: seq<Move>)
        returns (received: seq<Message>, started: nat, misled: bool, broken: bool, ghost talks: seq<Talk>)
      requires Valid() && messages == [] && writing == Idle && reading == Resting
      requires forall m {:trigger m in outgoing} :: m in outgoing ==> 0 < |m| && |m| + LENGTH_BYTES < 0x1_0000_0000
      modifies this, buffer
      ensures (broken <==> !Valid()) && (broken ==> misled) && started <= |outgoing|
      ensures received + messages + InFlight() == outgoing[..started]
      ensures Placed() && old(Placed()) && 0 < |talks| <= |turns| + 1 && talks[0] == old(Now([], 0)) && AllTurned(outgoing, turns, talks)
      ensures misled <==> SomeMisleads(outgoing, turns, talks)
      ensures if broken then |talks| <= |turns| && Breaks(turns[|talks| - 1], talks[|talks| - 1])
              else |talks| == |turns| + 1 && talks[|turns|] == Now(received, started)
    {
      hide Valid, Fits, Placed, Stored, Coded, Turned, AllTurned, Breaks, Misleads, SomeMisleads;
      received, started, misled, broken := [], 0, false, false;
      PlacedNow();
      talks := [Now([], 0)];
      NoTurns(outgoing, turns, talks);
      for i := 0 to |turns|
        invariant !broken && Valid() && started <= |outgoing| && received + messages + InFlight() == outgoing[..started]
        invariant Placed() && (misled || Fits()) && (misled <==> SomeMisleads(outgoing, turns, talks))
        invariant |talks| == i + 1 && talks[0] == old(Now([], 0)) && talks[i] == Now(received, started) && AllTurned(outgoing, turns, talks)
      {
        received, started, misled, broken := TakeTurn(outgoing, turns[i], received, started, misled);
        if broken {
          return;
        }
        MoreTurns(outgoing, turns, talks, Now(received, started));
        talks := talks + [Now(received, started)];
      }
    }

    lemma PlacedNow()
      requires Valid()
      ensures Placed() && (writing.Idle? ==> Fits())
    {
    }

    /** prvWriteMessageToBuffer: length and data come to stand behind `used` bytes if and only if they fit. */
    method WriteMessage(m: Message, ghost begin: nat, ghost used: nat, ghost expected: seq<int>)
      requires Ring() && 0 < |m| && |m| + LENGTH_BYTES < length && begin < length && used < length
      requires head == Turn(begin + used, length) && Bytes(buffer[..], begin, used) == expected
      modifies buffer, `head
      ensures Ring() && Distance(begin, head, length) == Turn(used + LENGTH_BYTES + |m|, length)
      ensures used + LENGTH_BYTES + |m| < length ==> Turn(used + LENGTH_BYTES + |m|, length) == used + LENGTH_BYTES + |m|
      ensures Bytes(buffer[..], begin, Distance(begin, head, length)) == expected + (LengthCode(|m|) + m) <==>
                used + LENGTH_BYTES + |m| < length
    {
      hide Bytes, LengthCode, Overlaid, Distance, Turn;
      ghost var words0, head0 := buffer[..], head;
      CodeSize(|m|);
      WriteBytes(LengthCode(|m|));
      ghost var words1 := buffer[..];
      WriteBytes(m);
      TwoWritten(words0, words1, buffer[..], begin, used, head0, LengthCode(|m|), m, expected);
    }

    /** A send from beginning to end while the reader has moved `tail` past a length that it is going to put
        back: it keeps the buffer if and only if it has room without those four bytes, or not even with them. */
    method SendMeanwhile(m: Message) returns (sent: bool)
      requires Valid() && TooSmall() && writing.Idle? && 0 < |m| && |m| + LENGTH_BYTES < 0x1_0000_0000
      modifies this, buffer
      ensures Ring() && reading == Resting && tail == old(reading.original)
      ensures sent <==> |m| + LENGTH_BYTES <= old(Free()) + LENGTH_BYTES
      ensures Valid() <==> !(old(Free()) < |m| + LENGTH_BYTES <= old(Free()) + LENGTH_BYTES)
      ensures sent ==> BytesInBuffer() == Turn(old(Used()) + LENGTH_BYTES + |m|, length)
    {
      hide Bytes, Coded, LengthCode, Overlaid, Distance, Turn, Stored;
      ghost var expected, used := Expected(), Used();
      var original := reading.original;
      sent := Size(m);
      if sent {
        WriteMessage(m, original, used, expected);
        StoredAppend(messages, m, false);
        messages, writing := messages + [m], Idle;
      }
      tail, reading := original, Resting;
      InBuffer();
    }

    /** The shortest case, in a buffer for 12 bytes: two messages of four bytes each, of which none can be
        read any more. */
    method TooSmallReceiveRace() returns (unread: nat)
      requires Valid() && messages == [] && writing == Idle && reading == Resting && length == 13
      modifies this, buffer
      ensures Ring() && !Valid() && unread == BytesInBuffer() == 3
    {
      var sent := Send([1, 2, 3, 4]);
      var some := Look(0);
      ReadLength();
      sent := SendMeanwhile([5, 6, 7, 8]);
      unread := BytesInBuffer();
    }
  }

  /** From `a` around to `b` */
  function Distance(a: nat, b: nat, length: nat): (n: nat)
    requires a < length && b < length
    ensures n < length && Turn(a + n, length) == b
  {
    if b >= a then b - a else length + b - a
  }

  /** The messages in a buffer, the first one perhaps without its length */
  function Stored(messages: seq<Message>, partly: bool): seq<int> {
    if partly && messages != [] then messages[0] + Coded(messages[1..]) else Coded(messages)
  }

  lemma StoredAppend(messages: seq<Message>, m: Message, partly: bool)
    requires partly ==> messages != []
    ensures Stored(messages + [m], partly) == Stored(messages, partly) + (LengthCode(|m|) + m)
  {
    CodedAppend(messages, m);
    if partly {
      CodedAppend(messages[1..], m);
      assert (messages + [m])[1..] == messages[1..] + [m];
    }
  }

  /** Some data were written into a ring at `head`. */
  ghost predicate Overlaid(before: seq<int>, after: seq<int>, head: nat, data: seq<int>) {
    && |before| == |after| && head < |before| && |data| < |before|
    && (forall j {:trigger data[j]} :: 0 <= j < |data| ==> after[Turn(head + j, |before|)] == data[j])
    && forall p {:trigger after[p]} :: 0 <= p < |before| && !(head <= p < head + |data|) && !(head <= p + |before| < head + |data|) ==>
         after[p] == before[p]
  }

  lemma Written(before: seq<int>, after: seq<int>, tail: nat, n: nat, head: nat, data: seq<int>)
    requires tail < |before| && n + |data| < |before| && head == Turn(tail + n, |before|) && Overlaid(before, after, head, data)
    ensures Bytes(after, tail, n + |data|) == Bytes(before, tail, n) + data
  {
  }

  /** Data that are written behind some bytes come to stand behind them if and only if they fit. */
  lemma WrittenExactly(before: seq<int>, after: seq<int>, begin: nat, used: nat, head: nat, data: seq<int>, expected: seq<int>)
    requires begin < |before| && used < |before| && head == Turn(begin + used, |before|) && Overlaid(before, after, head, data)
    requires Bytes(before, begin, used) == expected
    ensures Turn(head + |data|, |before|) < |before|
    ensures Bytes(after, begin, Distance(begin, Turn(head + |data|, |before|), |before|)) == expected + data <==> used + |data| < |before|
    ensures Distance(begin, Turn(head + |data|, |before|), |before|) == Turn(used + |data|, |before|)
    ensures used + |data| < |before| ==> Turn(used + |data|, |before|) == used + |data|
  {
    hide Bytes;
    if used + |data| < |before| {
      Written(before, after, begin, used, head, data);
    }
  }

  lemma TwoWritten(words0: seq<int>, words1: seq<int>, words2: seq<int>, begin: nat, used: nat, head: nat, a: seq<int>, b: seq<int>, expected: seq<int>)
    requires begin < |words0| && used < |words0| && head == Turn(begin + used, |words0|) && Bytes(words0, begin, used) == expected
    requires Overlaid(words0, words1, head, a) && Overlaid(words1, words2, Turn(head + |a|, |words0|), b) && |a| + |b| < |words0|
    ensures var head2 := Turn(Turn(head + |a|, |words0|) + |b|, |words0|);
            && head2 < |words0| == |words2| && Distance(begin, head2, |words0|) == Turn(used + |a| + |b|, |words0|)
            && (used + |a| + |b| < |words0| ==> Turn(used + |a| + |b|, |words0|) == used + |a| + |b|)
            && (Bytes(words2, begin, Distance(begin, head2, |words0|)) == expected + (a + b) <==> used + |a| + |b| < |words0|)
  {
    hide Bytes;
    WrittenExactly(words0, words1, begin, used, head, a, expected);
    if used + |a| < |words0| {
      WrittenExactly(words1, words2, begin, used + |a|, Turn(head + |a|, |words0|), b, expected + a);
      assert expected + a + b == expected + (a + b);
    }
  }

  lemma Read(buffer: seq<int>, tail: nat, n: nat, count: nat, data: seq<int>)
    requires tail < |buffer| && count <= n < |buffer| && data == Bytes(buffer, tail, count)
    ensures Bytes(buffer, tail, n) == data + Bytes(buffer, Turn(tail + count, |buffer|), n - count)
  {
  }

  /** A reader sees more than four bytes exactly if there is a whole message. */
  lemma Visible(messages: seq<Message>, writing: Writing, unread: seq<int>)
    requires unread == Coded(messages) + (if writing.LengthWritten? then LengthCode(|writing.message|) else [])
    requires forall m {:trigger m in messages} :: m in messages ==> 0 < |m|
    ensures |unread| > LENGTH_BYTES <==> messages != []
    ensures messages == [] ==> |unread| == if writing.LengthWritten? then LENGTH_BYTES else 0
  {
    if messages != [] { assert messages[0] in messages; }
  }

  /** What is unread starts with the length of the oldest message, and goes on with that message. */
  lemma FirstMessage(messages: seq<Message>, writing: Writing, unread: seq<int>, code: seq<int>, rest: seq<int>)
    requires messages != [] && |code| == LENGTH_BYTES && unread == code + rest
    requires forall m {:trigger m in messages} :: m in messages ==> 0 < |m| < 0x1_0000_0000
    requires unread == Coded(messages) + (if writing.LengthWritten? then LengthCode(|writing.message|) else [])
    ensures CodedLength(code) == |messages[0]| && 0 < |messages[0]| <= |rest| && rest[..|messages[0]|] == messages[0]
    ensures rest[|messages[0]|..] == Coded(messages[1..]) + (if writing.LengthWritten? then LengthCode(|writing.message|) else [])
  {
    hide CodedLength, LengthCode;
    var m := messages[0];
    assert m in messages;
    LengthRoundTrip(|m|);
    var tail := Coded(messages[1..]) + (if writing.LengthWritten? then LengthCode(|writing.message|) else []);
    CodeSize(|m|);
    Regroup(LengthCode(|m|), m, Coded(messages[1..]), if writing.LengthWritten? then LengthCode(|writing.message|) else []);
    Split(code, rest, LengthCode(|m|), m + tail);
  }

  /** After the length comes the message, and what is behind it. */
  lemma Unlengthed(messages: seq<Message>, writing: Writing, unread: seq<int>, code: seq<int>, rest: seq<int>)
    requires messages != [] && |code| == LENGTH_BYTES && unread == code + rest
    requires unread == Coded(messages) + (if writing.LengthWritten? then LengthCode(|writing.message|) else [])
    ensures rest == Stored(messages, true) + (if writing.LengthWritten? then LengthCode(|writing.message|) else [])
  {
    hide LengthCode;
    var m := messages[0];
    CodeSize(|m|);
    Regroup(LengthCode(|m|), m, Coded(messages[1..]), if writing.LengthWritten? then LengthCode(|writing.message|) else []);
    Split(code, rest, LengthCode(|m|), m + (Coded(messages[1..]) + if writing.LengthWritten? then LengthCode(|writing.message|) else []));
  }

  lemma Unfirst(messages: seq<Message>, writing: Writing, unread: seq<int>, first: seq<int>, rest: seq<int>)
    requires messages != [] && unread == first + rest && |first| == |messages[0]|
    requires unread == Stored(messages, true) + (if writing.LengthWritten? then LengthCode(|writing.message|) else [])
    ensures first == messages[0] && rest == Coded(messages[1..]) + (if writing.LengthWritten? then LengthCode(|writing.message|) else [])
  {
    hide Coded, LengthCode;
    Split(first, rest, messages[0], Coded(messages[1..]) + if writing.LengthWritten? then LengthCode(|writing.message|) else []);
  }

  lemma CodeSize(n: nat)
    ensures |LengthCode(n)| == LENGTH_BYTES
  {
  }

  lemma Regroup(a: seq<int>, b: seq<int>, c: seq<int>, d: seq<int>)
    ensures (a + b + c) + d == a + (b + (c + d))
  {
  }

  lemma Split(a: seq<int>, b: seq<int>, c: seq<int>, d: seq<int>)
    requires |a| == |c| && a + b == c + d
    ensures a == c && b == d
  {
    assert a == (a + b)[..|a|] && c == (c + d)[..|c|];
    assert b == (a + b)[|a|..] && d == (c + d)[|c|..];
  }

  lemma Halves(all: seq<int>, a: seq<int>, b: seq<int>)
    requires all == a + b
    ensures a == all[..|a|] && b == all[|a|..]
  {
  }

  lemma LaterMessages(messages: seq<Message>)
    requires messages != []
    ensures forall m {:trigger m in messages[1..]} :: m in messages[1..] ==> m in messages
  {
  }
}
