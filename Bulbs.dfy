/**
 * A bulb on the local network, reached through one socket. Every command
 * goes out as one JSON-RPC line; the answer is read back in chunks of
 * PacketLength, skipping the notifications the bulb pushes in between.
 * Anything read past the answer stays in the bulb's buffer.
 */
module Bulbs {
  import opened Wrappers
  import opened Json
  import opened Protocol
  import opened Replies
  import opened RawSocket

  class Bulb {
    const socket: Socket
    const ip: string
    const port: int
    /** The bulb's id as discovery reported it, a hexadecimal text such as "0x0". */
    const id: string
    /** What has been read from the socket but not yet consumed. */
    var buffer: string

    constructor (socket: Socket, ip: string, port: int, id: string)
      ensures this.socket == socket && this.ip == ip && this.port == port && this.id == id
      ensures buffer == []
    {
      this.socket := socket;
      this.ip := ip;
      this.port := port;
      this.id := id;
      buffer := [];
    }

    /**
     * What one call of command c did, against the state before it: the
     * request line went out once with NoFlag, the reads took the chunks
     * Receive says they take, each asking for PacketLength (plus one read
     * that found the socket dry, when no answer came), and the response and
     * the buffer left behind are Receive's.
     */
    twostate predicate Served(c: Command, new r: Option<Response>)
      reads this, socket
    {
      var o := Receive(old(buffer), old(socket.script));
      && r == o.response
      && buffer == o.buffer
      && socket.script == old(socket.script)[o.readCount..]
      && socket.readLog == old(socket.readLog) + Repeat(PacketLength, o.readCount + (if r.None? then 1 else 0))
      && socket.sent == old(socket.sent) + [Sent.Send(RequestText(id, c), NoFlag)]
      && socket.ready == old(socket.ready) && socket.selectLog == old(socket.selectLog)
      && socket.blockingCalls == old(socket.blockingCalls)
    }

    /** Sends c and reads until an answer arrives or the socket runs dry. */
    method Invoke(c: Command) returns (r: Option<Response>)
      modifies this, socket
      ensures Served(c, r)
    {
      socket.Send(RequestText(id, c), NoFlag);
      ghost var chunks := socket.script;
      ghost var log := socket.readLog;
      var buf := buffer;
      var scan := ScanBuffer(buf);
      ghost var n := 0;
      while scan.NeedMore?
        invariant Pending(old(buffer), chunks, n, buf, socket.script)
        invariant scan == ScanBuffer(buf)
        invariant socket.readLog == log + Repeat(PacketLength, n)
        invariant socket.sent == old(socket.sent) + [Sent.Send(RequestText(id, c), NoFlag)]
        invariant socket.ready == old(socket.ready) && socket.selectLog == old(socket.selectLog)
        invariant socket.blockingCalls == old(socket.blockingCalls)
        decreases |socket.script|
      {
        ghost var script := socket.script;
        var chunk := socket.Read(PacketLength);
        if chunk.None? {
          PendingDry(old(buffer), chunks, n, buf, script);
          r := None;
          buffer := scan.kept;
          assert Repeat(PacketLength, n) + [PacketLength] == Repeat(PacketLength, n + 1);
          return;
        }
        PendingStep(old(buffer), chunks, n, buf, script);
        assert Repeat(PacketLength, n) + [PacketLength] == Repeat(PacketLength, n + 1);
        buf := scan.kept + chunk.value;
        scan := ScanBuffer(buf);
        n := n + 1;
      }
      PendingFound(old(buffer), chunks, n, buf, socket.script);
      r := Some(scan.response);
      buffer := scan.rest;
    }

    method GetProp(props: seq<string>) returns (r: Option<Response>)
      modifies this, socket
      ensures Served(Command.GetProp(props), r)
    {
      r := Invoke(Command.GetProp(props));
    }

    method SetCtAbx(ct: int, effect: string, duration: int) returns (r: Option<Response>)
      modifies this, socket
      ensures Served(Command.SetCtAbx(ct, effect, duration), r)
    {
      r := Invoke(Command.SetCtAbx(ct, effect, duration));
    }

    method SetRgb(rgb: int, effect: string, duration: int) returns (r: Option<Response>)
      modifies this, socket
      ensures Served(Command.SetRgb(rgb, effect, duration), r)
    {
      r := Invoke(Command.SetRgb(rgb, effect, duration));
    }

    method SetHsv(hue: int, sat: int, effect: string, duration: int) returns (r: Option<Response>)
      modifies this, socket
      ensures Served(Command.SetHsv(hue, sat, effect, duration), r)
    {
      r := Invoke(Command.SetHsv(hue, sat, effect, duration));
    }

    method SetBright(brightness: int, effect: string, duration: int) returns (r: Option<Response>)
      modifies this, socket
      ensures Served(Command.SetBright(brightness, effect, duration), r)
    {
      r := Invoke(Command.SetBright(brightness, effect, duration));
    }

    method SetPower(power: string, effect: string, duration: int) returns (r: Option<Response>)
      modifies this, socket
      ensures Served(Command.SetPower(power, effect, duration), r)
    {
      r := Invoke(Command.SetPower(power, effect, duration));
    }

    method Toggle() returns (r: Option<Response>)
      modifies this, socket
      ensures Served(Command.Toggle, r)
    {
      r := Invoke(Command.Toggle);
    }

    method SetDefault() returns (r: Option<Response>)
      modifies this, socket
      ensures Served(Command.SetDefault, r)
    {
      r := Invoke(Command.SetDefault);
    }

    method StartCf(count: int, cfAction: int, flow: seq<FlowTuple>) returns (r: Option<Response>)
      modifies this, socket
      ensures Served(Command.StartCf(count, cfAction, flow), r)
    {
      r := Invoke(Command.StartCf(count, cfAction, flow));
    }

    method StopCf() returns (r: Option<Response>)
      modifies this, socket
      ensures Served(Command.StopCf, r)
    {
      r := Invoke(Command.StopCf);
    }

    method SetScene(sceneParams: seq<Json>) returns (r: Option<Response>)
      modifies this, socket
      ensures Served(Command.SetScene(sceneParams), r)
    {
      r := Invoke(Command.SetScene(sceneParams));
    }

    method CronAdd(cronType: int, cronValue: int) returns (r: Option<Response>)
      modifies this, socket
      ensures Served(Command.CronAdd(cronType, cronValue), r)
    {
      r := Invoke(Command.CronAdd(cronType, cronValue));
    }

    method CronGet(cronType: int) returns (r: Option<Response>)
      modifies this, socket
      ensures Served(Command.CronGet(cronType), r)
    {
      r := Invoke(Command.CronGet(cronType));
    }

    method CronDel(cronType: int) returns (r: Option<Response>)
      modifies this, socket
      ensures Served(Command.CronDel(cronType), r)
    {
      r := Invoke(Command.CronDel(cronType));
    }

    method SetAdjust(adjustAction: string, prop: string) returns (r: Option<Response>)
      modifies this, socket
      ensures Served(Command.SetAdjust(adjustAction, prop), r)
    {
      r := Invoke(Command.SetAdjust(adjustAction, prop));
    }

    method SetMusic(musicAction: int, host: string, musicPort: int) returns (r: Option<Response>)
      modifies this, socket
      ensures Served(Command.SetMusic(musicAction, host, musicPort), r)
    {
      r := Invoke(Command.SetMusic(musicAction, host, musicPort));
    }

    method SetName(name: string) returns (r: Option<Response>)
      modifies this, socket
      ensures Served(Command.SetName(name), r)
    {
      r := Invoke(Command.SetName(name));
    }
  }

  // ---------------------------------------------------------------------
  // The reply loop against Receive: after n reads of the chunks, with buf
  // in hand and script still to come, what is left of the loop gives what
  // Receive gives for the whole, n reads short.

  ghost predicate Pending(start: string, chunks: seq<string>, n: nat, buf: string, script: seq<string>)
  {
    && n <= |chunks| && script == chunks[n..]
    && var o, p := Receive(start, chunks), Receive(buf, script);
    o.response == p.response && o.buffer == p.buffer && o.readCount == p.readCount + n
  }

  /** One more chunk read: the loop has made one read more and holds the kept text and that chunk. */
  lemma PendingStep(start: string, chunks: seq<string>, n: nat, buf: string, script: seq<string>)
    requires Pending(start, chunks, n, buf, script)
    requires ScanBuffer(buf).NeedMore? && script != []
    ensures Pending(start, chunks, n + 1, ScanBuffer(buf).kept + script[0], script[1..])
  {
    assert chunks[n..][1..] == chunks[n + 1..];
  }

  /** The socket ran dry: Receive gives no response after every chunk was read. */
  lemma PendingDry(start: string, chunks: seq<string>, n: nat, buf: string, script: seq<string>)
    requires Pending(start, chunks, n, buf, script)
    requires ScanBuffer(buf).NeedMore? && script == []
    ensures Receive(start, chunks) == Outcome(None, n, ScanBuffer(buf).kept)
  {
  }

  /** An answer in hand: Receive gives it after exactly n reads. */
  lemma PendingFound(start: string, chunks: seq<string>, n: nat, buf: string, script: seq<string>)
    requires Pending(start, chunks, n, buf, script)
    requires ScanBuffer(buf).Found?
    ensures Receive(start, chunks) == Outcome(Some(ScanBuffer(buf).response), n, ScanBuffer(buf).rest)
    ensures script == chunks[n..]
  {
  }

  // ---------------------------------------------------------------------
  // What a call does for the replies of the bulb test suite, on a bulb whose
  // buffer is empty. The lines themselves are those of Replies.SuccessExchange
  // and its neighbours.

  /** One chunk with one answer line: one read of PacketLength, that answer, nothing kept. */
  twostate lemma AnswerServed(b: Bulb, c: Command, new r: Option<Response>, answer: string)
    requires !HasCrlf(answer) && Classify(answer).Answer?
    requires old(b.buffer) == [] && old(b.socket.script) == [answer + "\r\n"]
    requires b.Served(c, r)
    ensures r == Some(Classify(answer).response)
    ensures b.socket.readLog == old(b.socket.readLog) + [PacketLength]
    ensures b.socket.sent == old(b.socket.sent) + [Sent.Send(RequestText(b.id, c), NoFlag)]
    ensures b.buffer == [] && b.socket.script == []
  {
    assert old(b.socket.script) == [answer + "\r\n"] + [];
    ReceiveAnswer(answer, []);
  }

  /** An answer and a notification in one chunk: one read, the answer, the notification left in the buffer. */
  twostate lemma AnswerThenNotificationServed(b: Bulb, c: Command, new r: Option<Response>, answer: string, note: string)
    requires !HasCrlf(answer) && Classify(answer).Answer?
    requires !HasCrlf(note) && Classify(note).Notification?
    requires old(b.buffer) == [] && old(b.socket.script) == [answer + "\r\n" + note + "\r\n"]
    requires b.Served(c, r)
    ensures r == Some(Classify(answer).response)
    ensures b.socket.readLog == old(b.socket.readLog) + [PacketLength]
    ensures b.buffer == note + "\r\n" && b.socket.script == []
  {
    assert old(b.socket.script) == [answer + "\r\n" + note + "\r\n"] + [];
    ReceiveAnswerThenNotification(answer, note, []);
  }

  /** A chunk with a notification only, then one with an answer: exactly two reads of PacketLength, the answer. */
  twostate lemma NotificationThenAnswerServed(b: Bulb, c: Command, new r: Option<Response>, note: string, answer: string)
    requires !HasCrlf(note) && Classify(note).Notification?
    requires !HasCrlf(answer) && Classify(answer).Answer?
    requires old(b.buffer) == [] && old(b.socket.script) == [note + "\r\n", answer + "\r\n"]
    requires b.Served(c, r)
    ensures r == Some(Classify(answer).response)
    ensures b.socket.readLog == old(b.socket.readLog) + [PacketLength, PacketLength]
    ensures b.buffer == [] && b.socket.script == []
  {
    assert old(b.socket.script) == [note + "\r\n", answer + "\r\n"] + [];
    ReceiveNotificationThenAnswer(note, answer, []);
    assert Repeat(PacketLength, 2) == [PacketLength, PacketLength];
  }
}
