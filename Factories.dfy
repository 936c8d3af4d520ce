/**
 * The bulb factory: it turns the map discovery produced for one bulb into a
 * Bulb. The "Location" entry, of the form "yeelight://host:port", gives the
 * bulb's address; the "id" entry is kept as it is; every bulb gets a socket
 * of its own, opened through the socket factory.
 */
module Factories {
  import opened Wrappers
  import opened Text
  import opened RawSocket
  import opened Bulbs

  const Scheme := "yeelight://"

  /** Where a bulb listens. */
  datatype Address = Address(ip: string, port: nat)

  /**
   * The address of a location: the host runs from after the scheme to the
   * first colon, the port is the decimal number after that colon. Anything
   * else is not a location.
   */
  function ParseLocation(location: string): (r: Option<Address>)
    ensures r.Some? ==> ':' !in r.value.ip && Scheme + r.value.ip + ":" <= location
  {
    if |location| >= |Scheme| && location[..|Scheme|] == Scheme then
      var rest := location[|Scheme|..];
      match IndexOf(rest, ':')
      case None => None
      case Some(k) =>
        var digits := rest[k + 1..];
        if |digits| > 0 && AllDigits(digits) then
          assert location == Scheme + rest[..k] + ":" + digits;
          Some(Address(rest[..k], DecimalValue(digits)))
        else None
    else None
  }

  /** The location text of an address. */
  function FormatLocation(a: Address): string
  {
    Scheme + a.ip + ":" + NatText(a.port)
  }

  /** A location built from a host without colon and a decimal port reads back as that host and port. */
  lemma LocationOf(ip: string, digits: string)
    requires ':' !in ip && |digits| > 0 && AllDigits(digits)
    ensures ParseLocation(Scheme + ip + ":" + digits) == Some(Address(ip, DecimalValue(digits)))
  {
    var rest := ip + ([':'] + digits);
    Regroup(Scheme, ip, ":", digits);
    IndexOfAfter(ip, ':', digits);
    Halves(ip, [':'] + digits);
    assert ([':'] + digits)[1..] == digits;
    ParseAfterScheme(rest, |ip|);
  }

  lemma Regroup(a: string, b: string, c: string, d: string)
    ensures a + b + c + d == a + (b + (c + d))
  {
  }

  lemma Halves(a: string, b: string)
    ensures (a + b)[..|a|] == a && (a + b)[|a|..] == b
  {
  }

  /** After the scheme, the host runs up to the first colon and the port is what follows it. */
  lemma ParseAfterScheme(rest: string, k: nat)
    requires IndexOf(rest, ':') == Some(k)
    requires |rest[k + 1..]| > 0 && AllDigits(rest[k + 1..])
    ensures ParseLocation(Scheme + rest) == Some(Address(rest[..k], DecimalValue(rest[k + 1..])))
  {
    var s := Scheme + rest;
    assert s[..|Scheme|] == Scheme && s[|Scheme|..] == rest;
  }

  /** Every address whose host has no colon is read back from its location. */
  lemma LocationRoundTrip(a: Address)
    requires ':' !in a.ip
    ensures ParseLocation(FormatLocation(a)) == Some(a)
  {
    LocationOf(a.ip, NatText(a.port));
    DecimalOfNatText(a.port);
  }

  /** The location of the factory example. */
  lemma ExampleLocation()
    ensures ParseLocation("yeelight://192.168.1.239:55443") == Some(Address("192.168.1.239", 55443))
  {
    var ip, digits := "192.168.1.239", "55443";
    assert "yeelight://192.168.1.239:55443" == Scheme + ip + ":" + digits;
    assert DecimalValue(digits) == 55443 by {
      assert digits[..4] == "5544" && "5544"[..3] == "554" && "554"[..2] == "55";
      assert "55"[..1] == "5" && "5"[..0] == "";
    }
    LocationOf(ip, digits);
  }

  /** What create builds from a discovery map: the address and the id, when both are there. */
  function BulbOf(data: map<string, string>): (r: Option<(Address, string)>)
    ensures r.Some? <==> "Location" in data && "id" in data && ParseLocation(data["Location"]).Some?
    ensures r.Some? ==> ParseLocation(data["Location"]) == Some(r.value.0) && r.value.1 == data["id"]
  {
    if "Location" in data && "id" in data then
      match ParseLocation(data["Location"])
      case None => None
      case Some(a) => Some((a, data["id"]))
    else None
  }

  /** A map with the location of an address and an id describes the bulb at that address with that id. */
  lemma BulbOfFormatted(a: Address, id: string)
    requires ':' !in a.ip
    ensures BulbOf(map["Location" := FormatLocation(a), "id" := id]) == Some((a, id))
  {
    LocationRoundTrip(a);
  }

  /** b is the bulb at address a with the given id. */
  predicate Describes(b: Bulb, a: Address, id: string)
  {
    b.ip == a.ip && b.port == a.port && b.id == id
  }

  class BulbFactory {
    const socketFactory: Factory

    constructor (socketFactory: Factory)
      ensures this.socketFactory == socketFactory
    {
      this.socketFactory := socketFactory;
    }

    /**
     * A new bulb for data, with the address of its location, its id as it
     * is, an empty buffer and a socket of its own: exactly one socket is
     * created for it. Nothing is created for data that does not describe a
     * bulb.
     */
    method Create(data: map<string, string>) returns (b: Option<Bulb>)
      modifies socketFactory
      ensures b.Some? <==> BulbOf(data).Some?
      ensures b.Some? ==> fresh(b.value) && fresh(b.value.socket) && b.value.buffer == []
      ensures b.Some? ==> Describes(b.value, BulbOf(data).value.0, BulbOf(data).value.1)
      ensures b.Some? ==> b.value.socket.script == [] && b.value.socket.sent == [] && b.value.socket.readLog == []
      ensures socketFactory.created == old(socketFactory.created) + (if b.Some? then 1 else 0)
    {
      match BulbOf(data)
      case None =>
        b := None;
      case Some(found) =>
        var socket := socketFactory.CreateTcp4();
        var bulb := new Bulb(socket, found.0.ip, found.0.port, found.1);
        b := Some(bulb);
    }
  }

  /** The factory example's map describes the bulb at 192.168.1.239, port 55443, with its id unchanged. */
  lemma ExampleBulb()
    ensures BulbOf(map["Location" := "yeelight://192.168.1.239:55443", "id" := "0x0000000000000000"])
      == Some((Address("192.168.1.239", 55443), "0x0000000000000000"))
  {
    ExampleLocation();
  }
}
