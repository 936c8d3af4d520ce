/**
 * The raw client's search: it sends the discovery request once to the
 * multicast address, switches the socket's blocking mode, and then, as long
 * as selectRead reports data within the read timeout, reads one packet,
 * parses it into a header map, hands the map to the bulb factory and files
 * the bulb it gets back under the bulb's ip.
 */
module Client {
  import opened Wrappers
  import opened RawSocket
  import opened Bulbs
  import Discovery

  /** The discovery datagram (DISCOVERY_REQUEST); its text is not part of this model. */
  const DiscoveryRequest: string

  /** Where the discovery datagram goes (MULTICAST_ADDRESS); its value is not part of this model. */
  const MulticastAddress: string

  /**
   * The bulb factory as the client sees it: it answers each create with the
   * next of the bulbs it was given, and logs the map it was handed.
   */
  class ScriptedBulbFactory {
    /** The bulbs the coming create calls return, in order. */
    var bulbs: seq<Bulb>
    /** The map passed to every create call so far. */
    var received: seq<map<string, string>>

    constructor (bulbs: seq<Bulb>)
      ensures this.bulbs == bulbs && received == []
    {
      this.bulbs := bulbs;
      received := [];
    }

    method Create(data: map<string, string>) returns (b: Option<Bulb>)
      modifies this
      ensures old(bulbs) == [] ==> b == None && bulbs == []
      ensures old(bulbs) != [] ==> b == Some(old(bulbs)[0]) && bulbs == old(bulbs)[1..]
      ensures received == old(received) + [data]
    {
      if bulbs == [] {
        b := None;
      } else {
        b := Some(bulbs[0]);
        bulbs := bulbs[1..];
      }
      received := received + [data];
    }
  }

  /**
   * How many packets the loop takes in when selectRead answers ready and the
   * reads return script: one for every leading "ready" that finds a packet.
   */
  function Rounds(ready: seq<bool>, script: seq<string>): (n: nat)
    ensures n <= |ready| && n <= |script|
  {
    if ready != [] && ready[0] && script != [] then 1 + Rounds(ready[1..], script[1..]) else 0
  }

  /** Whether the loop stops because a read found nothing, rather than because selectRead said no. */
  function RanDry(ready: seq<bool>, script: seq<string>): bool
  {
    if ready != [] && ready[0] then script == [] || RanDry(ready[1..], script[1..]) else false
  }

  /** The header map of every packet. */
  function ParseAll(packets: seq<string>): (r: seq<map<string, string>>)
    ensures |r| == |packets|
    ensures forall i :: 0 <= i < |packets| ==> r[i] == Discovery.ParseHeaders(packets[i])
  {
    if packets == [] then [] else ParseAll(packets[..|packets| - 1]) + [Discovery.ParseHeaders(packets[|packets| - 1])]
  }

  /** The bulbs filed under their ips, a later bulb replacing an earlier one with the same ip. */
  function ByIp(bulbs: seq<Bulb>): map<string, Bulb>
  {
    if bulbs == [] then map[]
    else
      var last := bulbs[|bulbs| - 1];
      ByIp(bulbs[..|bulbs| - 1])[last.ip := last]
  }

  /** Rounds counts exactly the leading yes answers that found a packet, and stops at the first that did not. */
  lemma {:induction false} RoundsStops(ready: seq<bool>, script: seq<string>)
    ensures forall i :: 0 <= i < Rounds(ready, script) ==> ready[i]
    ensures var n := Rounds(ready, script); n == |ready| || !ready[n] || n == |script|
    ensures RanDry(ready, script) <==> var n := Rounds(ready, script); n < |ready| && ready[n]
  {
    if ready != [] && ready[0] && script != [] {
      RoundsStops(ready[1..], script[1..]);
      var n := Rounds(ready, script);
      forall i | 0 <= i < n ensures ready[i] {
        if i > 0 {
          assert ready[i] == ready[1..][i - 1];
        }
      }
      if n < |ready| {
        assert ready[n] == ready[1..][n - 1];
      }
    }
  }

  /** k yes answers followed by a no, with at least k packets to read: k rounds, ended by the no. */
  lemma {:induction false} RoundsOfAnswers(k: nat, rest: seq<bool>, script: seq<string>)
    requires |script| >= k
    ensures Rounds(Repeat(true, k) + [false] + rest, script) == k
    ensures !RanDry(Repeat(true, k) + [false] + rest, script)
  {
    var ready := Repeat(true, k) + [false] + rest;
    if k == 0 {
      assert ready[0] == false;
    } else {
      RepeatFront(k);
      assert ready[0] && ready[1..] == Repeat(true, k - 1) + [false] + rest;
      RoundsOfAnswers(k - 1, rest, script[1..]);
    }
  }

  lemma {:induction false} RepeatFront(k: nat)
    requires k > 0
    ensures Repeat(true, k) == [true] + Repeat(true, k - 1)
  {
    if k > 1 {
      RepeatFront(k - 1);
    }
  }

  /** The keys of ByIp are the ips of the bulbs, and each is filed under its own ip. */
  lemma {:induction false} ByIpKeys(bulbs: seq<Bulb>)
    ensures ByIp(bulbs).Keys == set i | 0 <= i < |bulbs| :: bulbs[i].ip
    ensures forall ip :: ip in ByIp(bulbs) ==> ByIp(bulbs)[ip].ip == ip
  {
    if bulbs != [] {
      var init := bulbs[..|bulbs| - 1];
      ByIpKeys(init);
      assert forall i :: 0 <= i < |init| ==> init[i] == bulbs[i];
      assert (set i | 0 <= i < |bulbs| :: bulbs[i].ip) == (set i | 0 <= i < |init| :: init[i].ip) + {bulbs[|bulbs| - 1].ip};
    }
  }

  /** The first n entries of s, or all of s when it is shorter. */
  function Take<T>(s: seq<T>, n: nat): seq<T>
  {
    if n <= |s| then s[..n] else s
  }

  /** What is left of s after the first n entries. */
  function Drop<T>(s: seq<T>, n: nat): seq<T>
  {
    if n <= |s| then s[n..] else []
  }

  /**
   * What the search loop looks at and changes: what selectRead and read are
   * going to answer, their logs, the maps handed to the factory, and the
   * bulbs the factory is going to return.
   */
  datatype View = View(ready: seq<bool>, script: seq<string>, selectLog: seq<int>, readLog: seq<nat>,
                       received: seq<map<string, string>>, bulbs: seq<Bulb>)

  /** found with the next bulb the factory returns filed under its ip, if there is one. */
  function Filed(found: map<string, Bulb>, bulbs: seq<Bulb>): map<string, Bulb>
  {
    if bulbs == [] then found else found[bulbs[0].ip := bulbs[0]]
  }

  /**
   * The loop after i rounds, from start: i selects said yes, i packets were
   * read with PacketLength and handed on, and found files the bulbs the
   * factory returned for them.
   */
  predicate Progress(start: View, i: nat, now: View, found: map<string, Bulb>, timeout: int)
  {
    && i <= |start.script| && i <= |start.ready|
    && Rounds(start.ready, start.script) == i + Rounds(start.ready[i..], start.script[i..])
    && RanDry(start.ready, start.script) == RanDry(start.ready[i..], start.script[i..])
    && now == View(start.ready[i..], start.script[i..], start.selectLog + Repeat(timeout, i),
                   start.readLog + Repeat(PacketLength, i), start.received + ParseAll(start.script[..i]),
                   Drop(start.bulbs, i))
    && found == ByIp(Take(start.bulbs, i))
  }

  /**
   * The loop once it has stopped, from start: selectRead was asked one more
   * time than packets were taken in, every packet was read with
   * PacketLength (plus one read that found nothing, when the socket ran
   * dry), every packet's header map went to the factory in order, and found
   * files the bulbs the factory returned under their ips.
   */
  predicate Finished(start: View, now: View, found: map<string, Bulb>, timeout: int)
  {
    var n := Rounds(start.ready, start.script);
    && now == View(Drop(start.ready, n + 1), start.script[n..], start.selectLog + Repeat(timeout, n + 1),
                   start.readLog + Repeat(PacketLength, n + (if RanDry(start.ready, start.script) then 1 else 0)),
                   start.received + ParseAll(start.script[..n]), Drop(start.bulbs, n))
    && found == ByIp(Take(start.bulbs, n))
  }

  /** The loop starts with nothing done. */
  lemma ProgressStart(start: View, timeout: int)
    ensures Progress(start, 0, start, map[], timeout)
  {
    assert start.ready[0..] == start.ready && start.script[0..] == start.script && start.script[..0] == [];
    assert start.bulbs[..0] == [];
  }

  /** selectRead says no: the loop is finished. */
  lemma ProgressStop(start: View, i: nat, now: View, found: map<string, Bulb>, timeout: int)
    requires Progress(start, i, now, found, timeout)
    requires now.ready == [] || !now.ready[0]
    ensures Finished(start, now.(ready := Drop(now.ready, 1), selectLog := now.selectLog + [timeout]), found, timeout)
  {
    assert Rounds(start.ready[i..], start.script[i..]) == 0;
    assert !RanDry(start.ready[i..], start.script[i..]);
    assert Drop(now.ready, 1) == Drop(start.ready, i + 1) by {
      if i < |start.ready| {
        assert start.ready[i..][1..] == start.ready[i + 1..];
      }
    }
  }

  /** selectRead says yes but no packet is left: the loop is finished after one more read. */
  lemma ProgressDry(start: View, i: nat, now: View, found: map<string, Bulb>, timeout: int)
    requires Progress(start, i, now, found, timeout)
    requires now.ready != [] && now.ready[0] && now.script == []
    ensures Finished(start, now.(ready := now.ready[1..], selectLog := now.selectLog + [timeout],
                                 readLog := now.readLog + [PacketLength]), found, timeout)
  {
    assert Rounds(start.ready, start.script) == i by {
      assert Rounds(start.ready[i..], start.script[i..]) == 0;
    }
    assert RanDry(start.ready, start.script) by {
      assert RanDry(start.ready[i..], start.script[i..]);
    }
    assert Drop(start.ready, i + 1) == now.ready[1..] by {
      assert start.ready[i..][1..] == start.ready[i + 1..];
    }
    assert start.selectLog + Repeat(timeout, i + 1) == now.selectLog + [timeout];
    assert start.readLog + Repeat(PacketLength, i + 1) == now.readLog + [PacketLength];
    assert now.(ready := now.ready[1..], selectLog := now.selectLog + [timeout], readLog := now.readLog + [PacketLength])
      == View(Drop(start.ready, i + 1), start.script[i..], start.selectLog + Repeat(timeout, i + 1),
              start.readLog + Repeat(PacketLength, i + 1), start.received + ParseAll(start.script[..i]), Drop(start.bulbs, i));
  }

  /** selectRead says yes and a packet is there: one more round is done. */
  lemma ProgressStep(start: View, i: nat, now: View, found: map<string, Bulb>, timeout: int)
    requires Progress(start, i, now, found, timeout)
    requires now.ready != [] && now.ready[0] && now.script != []
    ensures i < |start.ready|
    ensures Progress(start, i + 1,
                     View(now.ready[1..], now.script[1..], now.selectLog + [timeout], now.readLog + [PacketLength],
                          now.received + [Discovery.ParseHeaders(now.script[0])], Drop(now.bulbs, 1)),
                     Filed(found, now.bulbs), timeout)
  {
    StepCounts(start, i, now, found, timeout);
    StepLogs(start, i, now, found, timeout);
    StepBulbs(start, i, now, found, timeout);
  }

  /** The rounds still to come and the packets still unread, one round on. */
  lemma StepCounts(start: View, i: nat, now: View, found: map<string, Bulb>, timeout: int)
    requires Progress(start, i, now, found, timeout)
    requires now.ready != [] && now.ready[0] && now.script != []
    ensures i < |start.ready| && i < |start.script|
    ensures Rounds(start.ready, start.script) == i + 1 + Rounds(start.ready[i + 1..], start.script[i + 1..])
    ensures RanDry(start.ready, start.script) == RanDry(start.ready[i + 1..], start.script[i + 1..])
    ensures now.ready[1..] == start.ready[i + 1..] && now.script[1..] == start.script[i + 1..]
  {
    assert start.ready[i..][0] == start.ready[i];
    RoundsStep(start.ready, start.script, i);
    assert start.ready[i..][1..] == start.ready[i + 1..] && start.script[i..][1..] == start.script[i + 1..];
  }

  /** The select and read logs and what the factory was handed, one round on. */
  lemma StepLogs(start: View, i: nat, now: View, found: map<string, Bulb>, timeout: int)
    requires Progress(start, i, now, found, timeout)
    requires now.ready != [] && now.ready[0] && now.script != []
    ensures start.selectLog + Repeat(timeout, i + 1) == now.selectLog + [timeout]
    ensures start.readLog + Repeat(PacketLength, i + 1) == now.readLog + [PacketLength]
    ensures i < |start.script|
    ensures start.received + ParseAll(start.script[..i + 1]) == now.received + [Discovery.ParseHeaders(now.script[0])]
  {
    ParseAllStep(start.script, i);
  }

  /** The bulbs the factory has left to give and those filed, one round on. */
  lemma StepBulbs(start: View, i: nat, now: View, found: map<string, Bulb>, timeout: int)
    requires Progress(start, i, now, found, timeout)
    ensures Drop(start.bulbs, i + 1) == Drop(now.bulbs, 1)
    ensures ByIp(Take(start.bulbs, i + 1)) == Filed(found, now.bulbs)
  {
    DropStep(start.bulbs, i);
    ByIpStep(start.bulbs, i);
  }

  lemma RoundsStep(ready: seq<bool>, script: seq<string>, i: nat)
    requires i < |ready| && ready[i] && i < |script|
    ensures Rounds(ready[i..], script[i..]) == 1 + Rounds(ready[i + 1..], script[i + 1..])
    ensures RanDry(ready[i..], script[i..]) == RanDry(ready[i + 1..], script[i + 1..])
  {
    assert ready[i..][1..] == ready[i + 1..];
    assert script[i..][1..] == script[i + 1..];
  }

  lemma DropStep<T>(s: seq<T>, i: nat)
    ensures Drop(s, i + 1) == if Drop(s, i) == [] then [] else Drop(s, i)[1..]
  {
    if i < |s| {
      assert s[i..][1..] == s[i + 1..];
    }
  }

  lemma ByIpStep(bulbs: seq<Bulb>, i: nat)
    ensures ByIp(Take(bulbs, i + 1)) == if i < |bulbs| then ByIp(Take(bulbs, i))[bulbs[i].ip := bulbs[i]] else ByIp(Take(bulbs, i))
  {
    if i < |bulbs| {
      var t := Take(bulbs, i + 1);
      assert t == bulbs[..i + 1] && t != [];
      assert t[..|t| - 1] == Take(bulbs, i) && t[|t| - 1] == bulbs[i];
    } else {
      assert Take(bulbs, i + 1) == bulbs == Take(bulbs, i);
    }
  }

  lemma ParseAllStep(script: seq<string>, i: nat)
    requires i < |script|
    ensures ParseAll(script[..i + 1]) == ParseAll(script[..i]) + [Discovery.ParseHeaders(script[i])]
  {
    assert script[..i + 1][..i] == script[..i];
  }

  class YeelightRawClient {
    const readTimeout: int
    const socket: Socket
    const bulbFactory: ScriptedBulbFactory

    constructor (readTimeout: int, socket: Socket, bulbFactory: ScriptedBulbFactory)
      ensures this.readTimeout == readTimeout && this.socket == socket && this.bulbFactory == bulbFactory
    {
      this.readTimeout := readTimeout;
      this.socket := socket;
      this.bulbFactory := bulbFactory;
    }

    /** The part of the state the search loop works on. */
    ghost function Now(): View
      reads socket, bulbFactory
    {
      View(socket.ready, socket.script, socket.selectLog, socket.readLog, bulbFactory.received, bulbFactory.bulbs)
    }

    /**
     * What one search did: the discovery request went out once to the
     * multicast address with NoFlag, setBlocking was called once, and then
     * the collection loop ran until it was Finished.
     */
    twostate predicate Searched(new found: map<string, Bulb>)
      reads this, socket, bulbFactory
    {
      && socket.sent == old(socket.sent) + [Sent.SendTo(DiscoveryRequest, NoFlag, MulticastAddress)]
      && socket.blockingCalls == old(socket.blockingCalls) + 1
      && Finished(old(Now()), Now(), found, readTimeout)
    }

    method Search() returns (found: map<string, Bulb>)
      modifies socket, bulbFactory
      ensures Searched(found)
    {
      socket.SendTo(DiscoveryRequest, NoFlag, MulticastAddress);
      socket.SetBlocking();
      found := Collect();
    }

    /** One packet: its header map goes to the factory, and the bulb it returns is filed under its ip. */
    method Admit(packet: string, found: map<string, Bulb>) returns (filed: map<string, Bulb>)
      modifies bulbFactory
      ensures bulbFactory.received == old(bulbFactory.received) + [Discovery.ParseHeaders(packet)]
      ensures bulbFactory.bulbs == Drop(old(bulbFactory.bulbs), 1)
      ensures filed == Filed(found, old(bulbFactory.bulbs))
    {
      var bulb := bulbFactory.Create(Discovery.ParseHeaders(packet));
      filed := found;
      if bulb.Some? {
        filed := found[bulb.value.ip := bulb.value];
      }
    }

    /** One round of the loop: ask selectRead, and on yes read a packet and hand it on. */
    method Round(ghost start: View, ghost i: nat, found: map<string, Bulb>) returns (more: bool, filed: map<string, Bulb>)
      requires Progress(start, i, Now(), found, readTimeout)
      modifies socket, bulbFactory
      ensures more ==> i < |start.ready| && Progress(start, i + 1, Now(), filed, readTimeout)
      ensures !more ==> Finished(start, Now(), filed, readTimeout)
      ensures socket.sent == old(socket.sent) && socket.blockingCalls == old(socket.blockingCalls)
    {
      ghost var now := Now();
      filed := found;
      more := socket.SelectRead(readTimeout);
      if !more {
        ProgressStop(start, i, now, found, readTimeout);
        return;
      }
      var packet := socket.Read(PacketLength);
      if packet.None? {
        more := false;
        ProgressDry(start, i, now, found, readTimeout);
        return;
      }
      ProgressStep(start, i, now, found, readTimeout);
      filed := Admit(packet.value, found);
    }

    /** While selectRead reports data: read a packet, parse it, have the factory make a bulb, file it under its ip. */
    method Collect() returns (found: map<string, Bulb>)
      modifies socket, bulbFactory
      ensures Finished(old(Now()), Now(), found, readTimeout)
      ensures socket.sent == old(socket.sent) && socket.blockingCalls == old(socket.blockingCalls)
    {
      ghost var start := Now();
      found := map[];
      var i := 0;
      var more := true;
      ProgressStart(start, readTimeout);
      while more
        invariant i <= |start.ready|
        invariant more ==> Progress(start, i, Now(), found, readTimeout)
        invariant !more ==> Finished(start, Now(), found, readTimeout)
        invariant socket.sent == old(socket.sent) && socket.blockingCalls == old(socket.blockingCalls)
        decreases |start.ready| - i + (if more then 1 else 0)
      {
        more, found := Round(start, i, found);
        if more {
          i := i + 1;
        }
      }
    }
  }

  // ---------------------------------------------------------------------
  // The search of the client test: selectRead says yes once and then no,
  // the one read returns the reply text, and the factory returns one bulb.

  /** One yes, one packet, one bulb: one read, the packet's map handed on once, that bulb under its ip. */
  twostate lemma OneReplySearch(c: YeelightRawClient, b: Bulb, packet: string, new found: map<string, Bulb>)
    requires old(c.socket.ready) == [true, false] && old(c.socket.script) == [packet]
    requires old(c.bulbFactory.bulbs) == [b]
    requires c.Searched(found)
    ensures found == map[b.ip := b] && |found| == 1
    ensures c.socket.sent == old(c.socket.sent) + [Sent.SendTo(DiscoveryRequest, NoFlag, MulticastAddress)]
    ensures c.socket.blockingCalls == old(c.socket.blockingCalls) + 1
    ensures c.socket.selectLog == old(c.socket.selectLog) + [c.readTimeout, c.readTimeout]
    ensures c.socket.readLog == old(c.socket.readLog) + [PacketLength]
    ensures c.bulbFactory.received == old(c.bulbFactory.received) + [Discovery.ParseHeaders(packet)]
  {
    assert old(c.socket.ready) == Repeat(true, 1) + [false] + [];
    RoundsOfAnswers(1, [], [packet]);
    assert [packet][..1] == [packet];
    assert ParseAll([packet]) == [Discovery.ParseHeaders(packet)] by {
      assert [packet][..0] == [];
    }
    assert Take([b], 1) == [b] && [b][..0] == [];
    assert ByIp([b]) == map[b.ip := b];
    assert map[b.ip := b].Keys == {b.ip};
    assert Repeat(c.readTimeout, 2) == [c.readTimeout, c.readTimeout];
  }
}
