/**
 * The requests a bulb understands: every wrapper method of the bulb names
 * one JSON-RPC method and assembles its parameters in a fixed order, and the
 * request travels as one JSON object {"id", "method", "params"} followed by
 * CR LF.
 */
module Protocol {
  import opened Wrappers
  import opened Text
  import opened Json

  /** One step of a colour flow: duration, mode, value and brightness. */
  datatype FlowTuple = FlowTuple(duration: int, mode: int, value: int, brightness: int)

  /** A command, one constructor per wrapper method of the bulb, with that method's arguments. */
  datatype Command =
    | GetProp(props: seq<string>)
    | SetCtAbx(ct: int, effect: string, duration: int)
    | SetRgb(rgb: int, effect: string, duration: int)
    | SetHsv(hue: int, sat: int, effect: string, duration: int)
    | SetBright(brightness: int, effect: string, duration: int)
    | SetPower(power: string, effect: string, duration: int)
    | Toggle
    | SetDefault
    | StartCf(count: int, cfAction: int, flow: seq<FlowTuple>)
    | StopCf
    | SetScene(sceneParams: seq<Json>)
    | CronAdd(cronType: int, cronValue: int)
    | CronGet(cronType: int)
    | CronDel(cronType: int)
    | SetAdjust(adjustAction: string, prop: string)
    | SetMusic(musicAction: int, host: string, musicPort: int)
    | SetName(name: string)

  function MethodName(c: Command): string
  {
    match c
    case GetProp(_) => "get_prop"
    case SetCtAbx(_, _, _) => "set_ct_abx"
    case SetRgb(_, _, _) => "set_rgb"
    case SetHsv(_, _, _, _) => "set_hsv"
    case SetBright(_, _, _) => "set_bright"
    case SetPower(_, _, _) => "set_power"
    case Toggle => "toggle"
    case SetDefault => "set_default"
    case StartCf(_, _, _) => "start_cf"
    case StopCf => "stop_cf"
    case SetScene(_) => "set_scene"
    case CronAdd(_, _) => "cron_add"
    case CronGet(_) => "cron_get"
    case CronDel(_) => "cron_del"
    case SetAdjust(_, _) => "set_adjust"
    case SetMusic(_, _, _) => "set_music"
    case SetName(_) => "set_name"
  }

  // ---------------------------------------------------------------------
  // The flow expression of start_cf

  /** The four values of every tuple, in order, as decimal texts. */
  function FlowTexts(flow: seq<FlowTuple>): seq<string>
  {
    if flow == [] then []
    else
      var t := flow[0];
      [IntText(t.duration), IntText(t.mode), IntText(t.value), IntText(t.brightness)] + FlowTexts(flow[1..])
  }

  /** The flow expression flattened into one comma-separated string. */
  function FlowString(flow: seq<FlowTuple>): string
  {
    Join(FlowTexts(flow), ',')
  }

  /** Groups decimal texts four by four back into tuples. */
  function ParseFlowParts(parts: seq<string>): Option<seq<FlowTuple>>
  {
    if parts == [] then Some([])
    else if |parts| < 4 then None
    else
      var d, m, v, b := ParseInt(parts[0]), ParseInt(parts[1]), ParseInt(parts[2]), ParseInt(parts[3]);
      if d.None? || m.None? || v.None? || b.None? then None
      else
        match ParseFlowParts(parts[4..])
        case None => None
        case Some(rest) => Some([FlowTuple(d.value, m.value, v.value, b.value)] + rest)
  }

  /** Reads a flattened flow expression back into its tuples. */
  function ParseFlow(s: string): Option<seq<FlowTuple>>
  {
    if s == "" then Some([]) else ParseFlowParts(Split(s, ','))
  }

  // ---------------------------------------------------------------------
  // Parameters

  function StrParams(props: seq<string>): (p: seq<Json>)
    ensures |p| == |props| && forall k :: 0 <= k < |p| ==> p[k] == Str(props[k])
  {
    if props == [] then [] else [Str(props[0])] + StrParams(props[1..])
  }

  /** The parameter list each wrapper method sends, in its argument order. */
  function Params(c: Command): seq<Json>
  {
    match c
    case GetProp(props) => StrParams(props)
    case SetCtAbx(ct, effect, duration) => [Int(ct), Str(effect), Int(duration)]
    case SetRgb(rgb, effect, duration) => [Int(rgb), Str(effect), Int(duration)]
    case SetHsv(hue, sat, effect, duration) => [Int(hue), Int(sat), Str(effect), Int(duration)]
    case SetBright(brightness, effect, duration) => [Int(brightness), Str(effect), Int(duration)]
    case SetPower(power, effect, duration) => [Str(power), Str(effect), Int(duration)]
    case Toggle => []
    case SetDefault => []
    case StartCf(count, action, flow) => [Int(count), Int(action), Str(FlowString(flow))]
    case StopCf => []
    case SetScene(p) => p
    case CronAdd(t, v) => [Int(t), Int(v)]
    case CronGet(t) => [Int(t)]
    case CronDel(t) => [Int(t)]
    case SetAdjust(action, prop) => [Str(action), Str(prop)]
    case SetMusic(action, host, port) => [Int(action), Str(host), Int(port)]
    case SetName(name) => [Str(name)]
  }

  // ---------------------------------------------------------------------
  // The receiving side: what a bulb makes of a method name and parameters

  /** The strings of a parameter list made only of strings. */
  function StrValues(p: seq<Json>): Option<seq<string>>
  {
    if p == [] then Some([])
    else if !p[0].Str? then None
    else
      match StrValues(p[1..])
      case None => None
      case Some(rest) => Some([p[0].s] + rest)
  }

  /** The command a method name and parameter list stand for, if any. */
  function FromWire(rpc: string, p: seq<Json>): Option<Command>
  {
    if rpc == "get_prop" then
      match StrValues(p)
      case None => None
      case Some(props) => Some(GetProp(props))
    else if rpc == "set_ct_abx" then
      if |p| == 3 && p[0].Int? && p[1].Str? && p[2].Int? then Some(SetCtAbx(p[0].i, p[1].s, p[2].i)) else None
    else if rpc == "set_rgb" then
      if |p| == 3 && p[0].Int? && p[1].Str? && p[2].Int? then Some(SetRgb(p[0].i, p[1].s, p[2].i)) else None
    else if rpc == "set_hsv" then
      if |p| == 4 && p[0].Int? && p[1].Int? && p[2].Str? && p[3].Int? then Some(SetHsv(p[0].i, p[1].i, p[2].s, p[3].i)) else None
    else if rpc == "set_bright" then
      if |p| == 3 && p[0].Int? && p[1].Str? && p[2].Int? then Some(SetBright(p[0].i, p[1].s, p[2].i)) else None
    else if rpc == "set_power" then
      if |p| == 3 && p[0].Str? && p[1].Str? && p[2].Int? then Some(SetPower(p[0].s, p[1].s, p[2].i)) else None
    else if rpc == "toggle" then
      if p == [] then Some(Toggle) else None
    else if rpc == "set_default" then
      if p == [] then Some(SetDefault) else None
    else if rpc == "start_cf" then
      if |p| == 3 && p[0].Int? && p[1].Int? && p[2].Str? then
        match ParseFlow(p[2].s)
        case None => None
        case Some(flow) => Some(StartCf(p[0].i, p[1].i, flow))
      else None
    else if rpc == "stop_cf" then
      if p == [] then Some(StopCf) else None
    else if rpc == "set_scene" then Some(SetScene(p))
    else if rpc == "cron_add" then
      if |p| == 2 && p[0].Int? && p[1].Int? then Some(CronAdd(p[0].i, p[1].i)) else None
    else if rpc == "cron_get" then
      if |p| == 1 && p[0].Int? then Some(CronGet(p[0].i)) else None
    else if rpc == "cron_del" then
      if |p| == 1 && p[0].Int? then Some(CronDel(p[0].i)) else None
    else if rpc == "set_adjust" then
      if |p| == 2 && p[0].Str? && p[1].Str? then Some(SetAdjust(p[0].s, p[1].s)) else None
    else if rpc == "set_music" then
      if |p| == 3 && p[0].Int? && p[1].Str? && p[2].Int? then Some(SetMusic(p[0].i, p[1].s, p[2].i)) else None
    else if rpc == "set_name" then
      if |p| == 1 && p[0].Str? then Some(SetName(p[0].s)) else None
    else None
  }

  // ---------------------------------------------------------------------
  // The request line

  /** The request object: the bulb id read as hexadecimal (PHP hexdec), the method and its parameters. */
  function RequestJson(id: string, c: Command): Json
  {
    Obj([Member("id", Int(HexDec(id))), Member("method", Str(MethodName(c))), Member("params", Arr(Params(c)))])
  }

  /** The exact text the bulb sends for a command. */
  function RequestText(id: string, c: Command): string
  {
    Encode(RequestJson(id, c)) + "\r\n"
  }

  /** What the bulb at the other end reads from a request line: the request id and the command. */
  function ParseRequest(line: string): Option<(int, Command)>
  {
    if |line| < 2 || line[|line| - 2..] != "\r\n" then None
    else
      match Decode(line[..|line| - 2])
      case Some(Obj(m)) =>
        (match (Lookup(m, "id"), Lookup(m, "method"), Lookup(m, "params"))
         case (Some(Int(id)), Some(Str(rpc)), Some(Arr(p))) =>
           (match FromWire(rpc, p)
            case None => None
            case Some(c) => Some((id, c)))
         case _ => None)
      case _ => None
  }

  // ---------------------------------------------------------------------
  // Properties

  lemma {:induction false} StrValuesOfStrParams(props: seq<string>)
    ensures StrValues(StrParams(props)) == Some(props)
  {
    if props != [] {
      var tail := StrParams(props[1..]);
      assert StrParams(props) == [Str(props[0])] + tail;
      assert ([Str(props[0])] + tail)[1..] == tail;
      StrValuesOfStrParams(props[1..]);
      assert [props[0]] + props[1..] == props;
    }
  }

  lemma {:induction false} FlowTextsAreInts(flow: seq<FlowTuple>)
    ensures |FlowTexts(flow)| == 4 * |flow|
    ensures forall k :: 0 <= k < |FlowTexts(flow)| ==> ',' !in FlowTexts(flow)[k]
    ensures forall k :: 0 <= k < |FlowTexts(flow)| ==> FlowTexts(flow)[k] != ""
  {
    if flow != [] {
      FlowTextsAreInts(flow[1..]);
      var t := flow[0];
      var head := [IntText(t.duration), IntText(t.mode), IntText(t.value), IntText(t.brightness)];
      forall k | 0 <= k < 4 ensures ',' !in head[k] && head[k] != "" {
        var i := if k == 0 then t.duration else if k == 1 then t.mode else if k == 2 then t.value else t.brightness;
        assert head[k] == IntText(i);
        IntTextHasNoOtherChars(i);
        assert forall j :: 0 <= j < |IntText(i)| ==> IntText(i)[j] != ',';
      }
    }
  }

  lemma {:induction false} ParseFlowPartsOfTexts(flow: seq<FlowTuple>)
    ensures ParseFlowParts(FlowTexts(flow)) == Some(flow)
  {
    if flow != [] {
      var t := flow[0];
      var parts := FlowTexts(flow);
      FlowTextsAreInts(flow[1..]);
      assert parts[0] == IntText(t.duration) && parts[1] == IntText(t.mode);
      assert parts[2] == IntText(t.value) && parts[3] == IntText(t.brightness);
      assert parts[4..] == FlowTexts(flow[1..]);
      ParseIntOfIntText(t.duration);
      ParseIntOfIntText(t.mode);
      ParseIntOfIntText(t.value);
      ParseIntOfIntText(t.brightness);
      ParseFlowPartsOfTexts(flow[1..]);
      assert [t] + flow[1..] == flow;
    }
  }

  /** Flattening a flow expression loses nothing: the tuples can be read back from the string. */
  lemma FlowRoundTrip(flow: seq<FlowTuple>)
    ensures ParseFlow(FlowString(flow)) == Some(flow)
  {
    var parts := FlowTexts(flow);
    FlowTextsAreInts(flow);
    ParseFlowPartsOfTexts(flow);
    if flow == [] {
      assert FlowString(flow) == "";
    } else {
      SplitOfJoin(parts, ',');
      assert |FlowString(flow)| >= |parts[0]| by { JoinLength(parts, ','); }
    }
  }

  lemma {:induction false} JoinLength(parts: seq<string>, sep: char)
    requires |parts| >= 1
    ensures |Join(parts, sep)| >= |parts[0]|
  {
  }

  /** The example of a two-step flow: every value of every tuple in order, joined by commas. */
  lemma FlowStringExample()
    ensures FlowString([FlowTuple(1000, 2, 2700, 100), FlowTuple(500, 1, 255, 10)]) == "1000,2,2700,100,500,1,255,10"
  {
    ExampleTexts();
    ExampleJoin();
  }

  lemma ExampleTexts()
    ensures FlowTexts([FlowTuple(1000, 2, 2700, 100), FlowTuple(500, 1, 255, 10)])
         == ["1000", "2", "2700", "100", "500", "1", "255", "10"]
  {
    var flow := [FlowTuple(1000, 2, 2700, 100), FlowTuple(500, 1, 255, 10)];
    assert IntText(1000) == "1000" && IntText(2) == "2" && IntText(2700) == "2700" && IntText(100) == "100";
    assert IntText(500) == "500" && IntText(1) == "1" && IntText(255) == "255" && IntText(10) == "10";
    assert flow[1..][1..] == [];
  }

  lemma ExampleJoin()
    ensures Join(["1000", "2", "2700", "100", "500", "1", "255", "10"], ',') == "1000,2,2700,100,500,1,255,10"
  {
    var first, second := ["1000", "2", "2700", "100"], ["500", "1", "255", "10"];
    assert ["1000", "2", "2700", "100", "500", "1", "255", "10"] == first + second;
    JoinAppend(first, second, ',');
    FirstTupleJoin();
    SecondTupleJoin();
    TuplesGlued();
  }

  lemma TuplesGlued()
    ensures "1000,2,2700,100" + [','] + "500,1,255,10" == "1000,2,2700,100,500,1,255,10"
  {
  }

  lemma FirstTupleJoin()
    ensures Join(["1000", "2", "2700", "100"], ',') == "1000,2,2700,100"
  {
  }

  lemma SecondTupleJoin()
    ensures Join(["500", "1", "255", "10"], ',') == "500,1,255,10"
  {
  }

  /** Each command can be recovered from its method name and parameters, so no two commands send the same request. */
  lemma WireRoundTrip(c: Command)
    ensures FromWire(MethodName(c), Params(c)) == Some(c)
  {
    if c.GetProp? || c.SetCtAbx? || c.SetRgb? || c.SetHsv? || c.SetBright? || c.SetPower? {
      WireOfLight(c);
    } else if c.StartCf? {
      WireOfStartCf(c);
    } else if c.Toggle? || c.SetDefault? || c.StopCf? || c.SetScene? {
      WireOfSwitch(c);
    } else if c.CronAdd? || c.CronGet? || c.CronDel? {
      WireOfCron(c);
    } else {
      WireOfSettings(c);
    }
  }

  lemma WireOfLight(c: Command)
    requires c.GetProp? || c.SetCtAbx? || c.SetRgb? || c.SetHsv? || c.SetBright? || c.SetPower?
    ensures FromWire(MethodName(c), Params(c)) == Some(c)
  {
    if c.GetProp? {
      StrValuesOfStrParams(c.props);
    }
  }

  lemma WireOfStartCf(c: Command)
    requires c.StartCf?
    ensures FromWire(MethodName(c), Params(c)) == Some(c)
  {
    var s := FlowString(c.flow);
    assert Params(c) == [Int(c.count), Int(c.cfAction), Str(s)];
    FlowRoundTrip(c.flow);
    FromWireStartCf(c.count, c.cfAction, s, c.flow);
  }

  lemma FromWireStartCf(count: int, action: int, s: string, flow: seq<FlowTuple>)
    requires ParseFlow(s) == Some(flow)
    ensures FromWire("start_cf", [Int(count), Int(action), Str(s)]) == Some(StartCf(count, action, flow))
  {
  }

  lemma WireOfSwitch(c: Command)
    requires c.Toggle? || c.SetDefault? || c.StopCf? || c.SetScene?
    ensures FromWire(MethodName(c), Params(c)) == Some(c)
  {
  }

  lemma WireOfCron(c: Command)
    requires c.CronAdd? || c.CronGet? || c.CronDel?
    ensures FromWire(MethodName(c), Params(c)) == Some(c)
  {
  }

  lemma WireOfSettings(c: Command)
    requires c.SetAdjust? || c.SetMusic? || c.SetName?
    ensures FromWire(MethodName(c), Params(c)) == Some(c)
  {
  }

  /** The request line holds no CR and no LF before its final CR LF: it is exactly one line. */
  lemma RequestIsOneLine(id: string, c: Command)
    ensures var t := RequestText(id, c);
      |t| >= 2 && t[|t| - 2..] == "\r\n" && IsPrintableAscii(t[..|t| - 2])
  {
    var t := RequestText(id, c);
    EncodePrintable(RequestJson(id, c));
    assert t[..|t| - 2] == Encode(RequestJson(id, c));
  }

  /** The receiving end reads back the numeric id and exactly the command that was sent. */
  lemma RequestRoundTrip(id: string, c: Command)
    ensures ParseRequest(RequestText(id, c)) == Some((HexDec(id), c))
  {
    var j := RequestJson(id, c);
    var t := RequestText(id, c);
    assert t[|t| - 2..] == "\r\n" && t[..|t| - 2] == Encode(j);
    DecodeEncode(j);
    RequestMembers(Int(HexDec(id)), Str(MethodName(c)), Arr(Params(c)));
    WireRoundTrip(c);
  }

  /** The three members of a request are found under their keys. */
  lemma RequestMembers(id: Json, rpc: Json, params: Json)
    ensures var m := [Member("id", id), Member("method", rpc), Member("params", params)];
      Lookup(m, "id") == Some(id) && Lookup(m, "method") == Some(rpc) && Lookup(m, "params") == Some(params)
  {
    var m := [Member("id", id), Member("method", rpc), Member("params", params)];
    assert m[..2] == [Member("id", id), Member("method", rpc)];
    assert m[..2][..1] == [Member("id", id)];
    assert Lookup(m[..2][..1], "id") == Some(id);
    assert Lookup(m[..2], "id") == Some(id);
  }

  /** The id "0x0" of a bulb is sent as the number 0. */
  lemma RequestIdOfZero(c: Command)
    ensures ParseRequest(RequestText("0x0", c)) == Some((0, c))
  {
    assert HexDec("0x0") == 0 by {
      assert "0x0"[..2] == "0x" && "0x"[..1] == "0" && "0"[..0] == "";
    }
    RequestRoundTrip("0x0", c);
  }
}
