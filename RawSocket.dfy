/**
 * The socket the client talks through, as a scripted connection: what its
 * reads and selects will answer is fixed in advance, and every call made on
 * it is logged. The library's own socket wraps the operating system's; here
 * only the calls and their results matter.
 */
module RawSocket {
  import opened Wrappers

  /** The size of every read (PACKET_LENGTH); its value is not part of this model. */
  const PacketLength: nat

  /** The flags argument of every send (NO_FLAG); its value is not part of this model. */
  const NoFlag: int

  /** One outgoing call, with its arguments. */
  datatype Sent =
    | Send(data: string, flag: int)
    | SendTo(data: string, flag: int, address: string)

  /** n copies of x: what n calls with the same argument log. */
  function Repeat<T>(x: T, n: nat): (r: seq<T>)
    ensures |r| == n
  {
    if n == 0 then [] else Repeat(x, n - 1) + [x]
  }

  class Socket {
    /** What the coming reads return, in order. */
    var script: seq<string>
    /** What the coming selectRead calls answer, in order. */
    var ready: seq<bool>
    /** The length asked for by every read so far. */
    var readLog: seq<nat>
    /** The timeout passed to every selectRead so far. */
    var selectLog: seq<int>
    /** Every send and sendTo so far. */
    var sent: seq<Sent>
    /** How often setBlocking was called. */
    var blockingCalls: nat

    constructor (script: seq<string>, ready: seq<bool>)
      ensures this.script == script && this.ready == ready
      ensures readLog == [] && selectLog == [] && sent == [] && blockingCalls == 0
    {
      this.script := script;
      this.ready := ready;
      readLog := [];
      selectLog := [];
      sent := [];
      blockingCalls := 0;
    }

    /** read: the next scripted chunk, or none once the script has run out. */
    method Read(length: nat) returns (r: Option<string>)
      modifies this
      ensures old(script) == [] ==> r == None && script == []
      ensures old(script) != [] ==> r == Some(old(script)[0]) && script == old(script)[1..]
      ensures readLog == old(readLog) + [length]
      ensures ready == old(ready) && selectLog == old(selectLog)
      ensures sent == old(sent) && blockingCalls == old(blockingCalls)
    {
      if script == [] {
        r := None;
      } else {
        r := Some(script[0]);
        script := script[1..];
      }
      readLog := readLog + [length];
    }

    /** selectRead: the next scripted answer; false once the script has run out. */
    method SelectRead(timeout: int) returns (b: bool)
      modifies this
      ensures b == (old(ready) != [] && old(ready)[0])
      ensures ready == if old(ready) == [] then [] else old(ready)[1..]
      ensures selectLog == old(selectLog) + [timeout]
      ensures script == old(script) && readLog == old(readLog)
      ensures sent == old(sent) && blockingCalls == old(blockingCalls)
    {
      if ready == [] {
        b := false;
      } else {
        b := ready[0];
        ready := ready[1..];
      }
      selectLog := selectLog + [timeout];
    }

    method Send(data: string, flag: int)
      modifies this
      ensures sent == old(sent) + [Sent.Send(data, flag)]
      ensures script == old(script) && ready == old(ready) && readLog == old(readLog)
      ensures selectLog == old(selectLog) && blockingCalls == old(blockingCalls)
    {
      sent := sent + [Sent.Send(data, flag)];
    }

    method SendTo(data: string, flag: int, address: string)
      modifies this
      ensures sent == old(sent) + [Sent.SendTo(data, flag, address)]
      ensures script == old(script) && ready == old(ready) && readLog == old(readLog)
      ensures selectLog == old(selectLog) && blockingCalls == old(blockingCalls)
    {
      sent := sent + [Sent.SendTo(data, flag, address)];
    }

    method SetBlocking()
      modifies this
      ensures blockingCalls == old(blockingCalls) + 1
      ensures script == old(script) && ready == old(ready) && readLog == old(readLog)
      ensures selectLog == old(selectLog) && sent == old(sent)
    {
      blockingCalls := blockingCalls + 1;
    }
  }

  /** The socket factory: each createTcp4 call opens one new socket. */
  class Factory {
    /** How many sockets have been created. */
    var created: nat

    constructor ()
      ensures created == 0
    {
      created := 0;
    }

    method CreateTcp4() returns (s: Socket)
      modifies this
      ensures fresh(s) && s.script == [] && s.ready == []
      ensures s.readLog == [] && s.selectLog == [] && s.sent == [] && s.blockingCalls == 0
      ensures created == old(created) + 1
    {
      s := new Socket([], []);
      created := created + 1;
    }
  }
}
