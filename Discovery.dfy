/**
 * The reply a bulb sends to the discovery request: a status line and then
 * "Key: value" header lines, one per line. The client turns it into a map
 * from key to value. The key loses its surrounding whitespace; the value is
 * everything after the first colon, as it is, so the space after the colon
 * stays and later colons stay too. A line without a colon is its own key and
 * value. When two lines carry the same key, the later one wins.
 */
module Discovery {
  import opened Text

  /** One line, split at its first colon (see ParseLineSplits). */
  function ParseLine(line: string): (string, string)
  {
    match IndexOf(line, ':')
    case None => (Trim(line), line)
    case Some(k) => (Trim(line[..k]), line[k + 1..])
  }

  /** The map of a sequence of lines: each line's key set to its value, in order. */
  function Headers(lines: seq<string>): map<string, string>
  {
    Into(map[], lines)
  }

  /** m with each line's key set to its value, first line first. */
  function Into(m: map<string, string>, lines: seq<string>): map<string, string>
    decreases |lines|
  {
    if lines == [] then m
    else
      var kv := ParseLine(lines[0]);
      Into(m[kv.0 := kv.1], lines[1..])
  }

  /** The map of a whole reply: its lines are what lies between the LF characters. */
  function ParseHeaders(text: string): map<string, string>
  {
    Headers(Split(text, '\n'))
  }

  // ---------------------------------------------------------------------
  // Properties

  /**
   * Without a colon, the line is its value and, trimmed, its key. With one,
   * the line is the key's text, the first colon and the value, and the key's
   * text holds no colon.
   */
  lemma ParseLineSplits(line: string)
    ensures var kv := ParseLine(line);
      && (':' !in line ==> kv == (Trim(line), line))
      && (':' in line ==>
           |kv.1| < |line|
           && var pre := line[..|line| - |kv.1| - 1];
           line == pre + ":" + kv.1 && ':' !in pre && kv.0 == Trim(pre))
  {
    match IndexOf(line, ':')
    case None =>
    case Some(k) =>
      assert line == line[..k] + ":" + line[k + 1..];
  }

  /** Every key of the map comes from some line. */
  lemma HeadersKeys(lines: seq<string>, k: string)
    requires k in Headers(lines)
    ensures exists i :: 0 <= i < |lines| && ParseLine(lines[i]).0 == k
  {
    IntoKeys(map[], lines, k);
  }

  lemma {:induction false} IntoKeys(m: map<string, string>, lines: seq<string>, k: string)
    requires k in Into(m, lines)
    ensures k in m || exists i :: 0 <= i < |lines| && ParseLine(lines[i]).0 == k
    decreases |lines|
  {
    if lines != [] {
      var kv := ParseLine(lines[0]);
      IntoKeys(m[kv.0 := kv.1], lines[1..], k);
      if k !in m && kv.0 != k {
        var i :| 0 <= i < |lines[1..]| && ParseLine(lines[1..][i]).0 == k;
        assert lines[1..][i] == lines[i + 1];
      }
    }
  }

  /** A key no line carries keeps the value it had. */
  lemma {:induction false} IntoKeeps(m: map<string, string>, lines: seq<string>, k: string)
    requires k in m
    requires forall j :: 0 <= j < |lines| ==> ParseLine(lines[j]).0 != k
    ensures k in Into(m, lines) && Into(m, lines)[k] == m[k]
    decreases |lines|
  {
    if lines != [] {
      var kv := ParseLine(lines[0]);
      assert kv.0 != k;
      forall j | 0 <= j < |lines[1..]| ensures ParseLine(lines[1..][j]).0 != k {
        assert lines[1..][j] == lines[j + 1];
      }
      IntoKeeps(m[kv.0 := kv.1], lines[1..], k);
    }
  }

  /** A key holds the value of the last line that carries it. */
  lemma HeadersLastWins(lines: seq<string>, i: nat)
    requires i < |lines|
    requires forall j :: i < j < |lines| ==> ParseLine(lines[j]).0 != ParseLine(lines[i]).0
    ensures ParseLine(lines[i]).0 in Headers(lines)
    ensures Headers(lines)[ParseLine(lines[i]).0] == ParseLine(lines[i]).1
  {
    IntoLastWins(map[], lines, i);
  }

  lemma {:induction false} IntoLastWins(m: map<string, string>, lines: seq<string>, i: nat)
    requires i < |lines|
    requires forall j :: i < j < |lines| ==> ParseLine(lines[j]).0 != ParseLine(lines[i]).0
    ensures ParseLine(lines[i]).0 in Into(m, lines)
    ensures Into(m, lines)[ParseLine(lines[i]).0] == ParseLine(lines[i]).1
    decreases |lines|
  {
    var kv := ParseLine(lines[0]);
    var rest := lines[1..];
    assert Into(m, lines) == Into(m[kv.0 := kv.1], rest);
    if i == 0 {
      forall j | 0 <= j < |rest| ensures ParseLine(rest[j]).0 != kv.0 {
        assert rest[j] == lines[j + 1];
      }
      IntoKeeps(m[kv.0 := kv.1], rest, kv.0);
    } else {
      assert rest[i - 1] == lines[i];
      forall j | i - 1 < j < |rest| ensures ParseLine(rest[j]).0 != ParseLine(rest[i - 1]).0 {
        assert rest[j] == lines[j + 1];
      }
      IntoLastWins(m[kv.0 := kv.1], rest, i - 1);
    }
  }

  /** Joining lines with LF and parsing the text gives the map of those lines. */
  lemma ParseHeadersOfLines(lines: seq<string>)
    requires |lines| >= 1
    requires forall k :: 0 <= k < |lines| ==> '\n' !in lines[k]
    ensures ParseHeaders(Join(lines, '\n')) == Headers(lines)
  {
    SplitOfJoin(lines, '\n');
  }

  /** A key without colons or surrounding whitespace, after any indentation: the value is the rest, verbatim. */
  lemma FieldLineParses(indent: string, key: string, value: string)
    requires AllTrimmable(indent) && IsTrimmed(key) && ':' !in key
    ensures ParseLine(indent + key + ":" + value) == (key, value)
  {
    var line := indent + key + ":" + value;
    assert ':' !in indent + key by {
      forall i | 0 <= i < |indent + key| ensures (indent + key)[i] != ':' {
        if i < |indent| {
          assert (indent + key)[i] == indent[i];
        } else {
          assert (indent + key)[i] == key[i - |indent|];
        }
      }
    }
    assert line == (indent + key) + ([':'] + value);
    IndexOfAfter(indent + key, ':', value);
    assert line[..|indent + key|] == indent + key;
    assert line[|indent + key| + 1..] == value;
    TrimPadded(indent, key, []);
    assert indent + key + [] == indent + key;
  }

  // ---------------------------------------------------------------------
  // A reply made of a status line and indented header lines

  /** The header lines for the given key/value pairs, each after the same indentation. */
  function FieldLines(indent: string, fields: seq<(string, string)>): (lines: seq<string>)
    ensures |lines| == |fields|
    ensures forall i :: 0 <= i < |fields| ==> lines[i] == indent + fields[i].0 + ":" + fields[i].1
  {
    if fields == [] then []
    else [indent + fields[0].0 + ":" + fields[0].1] + FieldLines(indent, fields[1..])
  }

  /** The key/value pairs set into m, in order. */
  function SetAll(m: map<string, string>, fields: seq<(string, string)>): map<string, string>
    decreases |fields|
  {
    if fields == [] then m else SetAll(m[fields[0].0 := fields[0].1], fields[1..])
  }

  predicate IsKey(key: string)
  {
    IsTrimmed(key) && ':' !in key && '\n' !in key
  }

  /** The map of a status line followed by header lines: the status line maps to itself, then each pair in order. */
  lemma HeadersOfFields(status: string, indent: string, fields: seq<(string, string)>)
    requires ':' !in status && IsTrimmed(status)
    requires AllTrimmable(indent)
    requires forall i :: 0 <= i < |fields| ==> IsKey(fields[i].0)
    ensures Headers([status] + FieldLines(indent, fields)) == SetAll(map[status := status], fields)
  {
    var lines := [status] + FieldLines(indent, fields);
    assert ParseLine(status) == (status, status) by {
      TrimPadded([], status, []);
      assert [] + status + [] == status;
    }
    assert lines[1..] == FieldLines(indent, fields);
    IntoFields(map[status := status], indent, fields);
  }

  lemma {:induction false} IntoFields(m: map<string, string>, indent: string, fields: seq<(string, string)>)
    requires AllTrimmable(indent)
    requires forall i :: 0 <= i < |fields| ==> IsKey(fields[i].0)
    ensures Into(m, FieldLines(indent, fields)) == SetAll(m, fields)
    decreases |fields|
  {
    if fields != [] {
      FieldLineParses(indent, fields[0].0, fields[0].1);
      assert forall i :: 0 <= i < |fields[1..]| ==> fields[1..][i] == fields[i + 1];
      IntoFields(m[fields[0].0 := fields[0].1], indent, fields[1..]);
    }
  }


  /** No line break in any header line when there is none in the indentation, the keys and the values. */
  lemma FieldLinesOneLine(indent: string, fields: seq<(string, string)>)
    requires '\n' !in indent
    requires forall i :: 0 <= i < |fields| ==> '\n' !in fields[i].0 && '\n' !in fields[i].1
    ensures forall i :: 0 <= i < |fields| ==> '\n' !in FieldLines(indent, fields)[i]
  {
    forall i | 0 <= i < |fields| ensures '\n' !in FieldLines(indent, fields)[i] {
      var l := FieldLines(indent, fields)[i];
      assert l == indent + fields[i].0 + ":" + fields[i].1;
      forall p | 0 <= p < |l| ensures l[p] != '\n' {
        if p < |indent| {
          assert l[p] == indent[p];
        } else if p < |indent| + |fields[i].0| {
          assert l[p] == fields[i].0[p - |indent|];
        } else if p > |indent| + |fields[i].0| {
          assert l[p] == fields[i].1[p - |indent| - |fields[i].0| - 1];
        }
      }
    }
  }

  /** A reply: a status line, then header lines with the given indentation, joined by LF. */
  function ReplyText(status: string, indent: string, fields: seq<(string, string)>): string
  {
    Join([status] + FieldLines(indent, fields), '\n')
  }

  /** Parsing a reply gives the status line mapped to itself and then every pair, the later of two equal keys winning. */
  lemma ParseReply(status: string, indent: string, fields: seq<(string, string)>)
    requires ':' !in status && '\n' !in status && IsTrimmed(status)
    requires AllTrimmable(indent) && '\n' !in indent
    requires forall i :: 0 <= i < |fields| ==> IsKey(fields[i].0) && '\n' !in fields[i].1
    ensures ParseHeaders(ReplyText(status, indent, fields)) == SetAll(map[status := status], fields)
  {
    var lines := [status] + FieldLines(indent, fields);
    assert ReplyText(status, indent, fields) == Join(lines, '\n');
    assert ParseHeaders(Join(lines, '\n')) == Headers(lines) by {
      ReplyLines(status, indent, fields, lines);
      ParseHeadersOfLines(lines);
    }
    assert Headers(lines) == SetAll(map[status := status], fields) by {
      HeadersOfFields(status, indent, fields);
    }
  }

  lemma ReplyLines(status: string, indent: string, fields: seq<(string, string)>, lines: seq<string>)
    requires '\n' !in status && '\n' !in indent
    requires forall i :: 0 <= i < |fields| ==> IsKey(fields[i].0) && '\n' !in fields[i].1
    requires lines == [status] + FieldLines(indent, fields)
    ensures forall k :: 0 <= k < |lines| ==> '\n' !in lines[k]
  {
    FieldLinesOneLine(indent, fields);
    forall k | 1 <= k < |lines| ensures '\n' !in lines[k] {
      assert lines[k] == FieldLines(indent, fields)[k - 1];
    }
  }

  /** No character of the parts and other than sep is in their join. */
  lemma {:induction false} JoinAvoids(parts: seq<string>, sep: char, c: char)
    requires c != sep
    requires forall i :: 0 <= i < |parts| ==> c !in parts[i]
    ensures c !in Join(parts, sep)
  {
    if |parts| > 1 {
      JoinAvoids(parts[1..], sep, c);
      var r := Join(parts[1..], sep);
      var s := parts[0] + [sep] + r;
      forall p | 0 <= p < |s| ensures s[p] != c {
        if p < |parts[0]| {
          assert s[p] == parts[0][p];
        } else if p > |parts[0]| {
          assert s[p] == r[p - |parts[0]| - 1];
        }
      }
    }
  }

  // ---------------------------------------------------------------------
  // The discovery reply of the client test suite

  const Status := "HTTP/1.1 200 OK"

  /** The eight spaces in front of every header line. */
  const Indent := "        "

  /** The methods the bulb supports, as its "support" header lists them. */
  const SupportedMethods := ["get_prop", "set_default", "set_power", "toggle", "set_bright", "start_cf", "stop_cf",
    "set_scene", "cron_add", "cron_get", "cron_del", "set_ct_abx", "set_rgb", "set_hsv", "set_adjust", "set_music",
    "set_name"]

  /** The value of the "support" header: a space, then the methods separated by spaces. */
  const Support := " " + Join(SupportedMethods, ' ')

  const HeadFields: seq<(string, string)> := [
    ("Cache-Control", " max-age=3600"),
    ("Date", ""),
    ("Ext", ""),
    ("Location", " yeelight://192.168.1.102:55443"),
    ("Server", " POSIX UPnP/1.0 YGLC/1"),
    ("id", " 0x0000000000000000")
  ]

  /** The model headers, with support as the value of "support". */
  function ModelFieldsWith(support: string): seq<(string, string)>
  {
    [
    ("model", " color"),
    ("fw_ver", " 45"),
    ("support", support),
    ("power", " on"),
    ("bright", " 100"),
    ("color_mode", " 2")
    ]
  }

  const ModelFields := ModelFieldsWith(Support)

  const StateFields: seq<(string, string)> := [
    ("ct", " 2926"),
    ("rgb", " 5728000"),
    ("hue", " 359"),
    ("sat", " 100"),
    ("name", "")
  ]

  /** The reply text: the status line and seventeen indented header lines. */
  const Response := ReplyText(Status, Indent, HeadFields + ModelFields + StateFields)

  /** The map the factory is handed for that reply. */
  const BulbData := map[
    "HTTP/1.1 200 OK" := "HTTP/1.1 200 OK",
    "Cache-Control" := " max-age=3600",
    "Date" := "",
    "Ext" := "",
    "Location" := " yeelight://192.168.1.102:55443",
    "Server" := " POSIX UPnP/1.0 YGLC/1",
    "id" := " 0x0000000000000000",
    "model" := " color",
    "fw_ver" := " 45",
    "support" := Support,
    "power" := " on",
    "bright" := " 100",
    "color_mode" := " 2",
    "ct" := " 2926",
    "rgb" := " 5728000",
    "hue" := " 359",
    "sat" := " 100",
    "name" := ""
  ]

  predicate FieldOk(f: (string, string))
  {
    IsKey(f.0) && '\n' !in f.1
  }

  lemma FieldsOkConcat(a: seq<(string, string)>, b: seq<(string, string)>)
    requires forall i :: 0 <= i < |a| ==> FieldOk(a[i])
    requires forall i :: 0 <= i < |b| ==> FieldOk(b[i])
    ensures forall i :: 0 <= i < |a + b| ==> FieldOk((a + b)[i])
  {
    forall i | 0 <= i < |a + b| ensures FieldOk((a + b)[i]) {
      if i >= |a| {
        assert (a + b)[i] == b[i - |a|];
      }
    }
  }

  lemma {:induction false} SetAllConcat(m: map<string, string>, a: seq<(string, string)>, b: seq<(string, string)>)
    ensures SetAll(m, a + b) == SetAll(SetAll(m, a), b)
    decreases |a|
  {
    if a != [] {
      assert (a + b)[0] == a[0] && (a + b)[1..] == a[1..] + b;
      SetAllConcat(m[a[0].0 := a[0].1], a[1..], b);
    } else {
      assert a + b == b;
    }
  }

  lemma HeadFieldsOk()
    ensures forall i :: 0 <= i < |HeadFields| ==> FieldOk(HeadFields[i])
  {
  }

  lemma ModelFieldsWithOk(support: string)
    requires '\n' !in support
    ensures forall i :: 0 <= i < |ModelFieldsWith(support)| ==> FieldOk(ModelFieldsWith(support)[i])
  {
  }

  lemma ModelFieldsOk()
    ensures forall i :: 0 <= i < |ModelFields| ==> FieldOk(ModelFields[i])
  {
    SupportHasNoLf();
    ModelFieldsWithOk(Support);
  }

  lemma SupportedMethodsHaveNoLf()
    ensures forall i :: 0 <= i < |SupportedMethods| ==> '\n' !in SupportedMethods[i]
  {
  }

  lemma SupportHasNoLf()
    ensures '\n' !in Support
  {
    SupportedMethodsHaveNoLf();
    JoinAvoids(SupportedMethods, ' ', '\n');
    assert Support == [' '] + Join(SupportedMethods, ' ');
  }

  lemma StateFieldsOk()
    ensures forall i :: 0 <= i < |StateFields| ==> FieldOk(StateFields[i])
  {
  }

  lemma ResponseFieldsOk()
    ensures forall i :: 0 <= i < |HeadFields + ModelFields + StateFields| ==> FieldOk((HeadFields + ModelFields + StateFields)[i])
  {
    HeadFieldsOk();
    ModelFieldsOk();
    StateFieldsOk();
    FieldsOkConcat(HeadFields, ModelFields);
    FieldsOkConcat(HeadFields + ModelFields, StateFields);
  }

  lemma StatusOk()
    ensures ':' !in Status && '\n' !in Status && IsTrimmed(Status)
  {
  }

  lemma IndentOk()
    ensures AllTrimmable(Indent) && '\n' !in Indent
  {
  }

  lemma ResponseIsReply()
    ensures ParseHeaders(Response) == SetAll(map[Status := Status], HeadFields + ModelFields + StateFields)
  {
    StatusOk();
    IndentOk();
    ResponseFieldsOk();
    ParseReply(Status, Indent, HeadFields + ModelFields + StateFields);
  }

  lemma SetAllFive(m: map<string, string>, a: (string, string), b: (string, string), c: (string, string),
                   d: (string, string), e: (string, string))
    ensures SetAll(m, [a, b, c, d, e]) == m[a.0 := a.1][b.0 := b.1][c.0 := c.1][d.0 := d.1][e.0 := e.1]
  {
    calc {
      SetAll(m, [a, b, c, d, e]);
      { assert [a, b, c, d, e][1..] == [b, c, d, e]; }
      SetAll(m[a.0 := a.1], [b, c, d, e]);
      { assert [b, c, d, e][1..] == [c, d, e]; }
      SetAll(m[a.0 := a.1][b.0 := b.1], [c, d, e]);
      { assert [c, d, e][1..] == [d, e]; }
      SetAll(m[a.0 := a.1][b.0 := b.1][c.0 := c.1], [d, e]);
      { assert [d, e][1..] == [e]; }
      SetAll(m[a.0 := a.1][b.0 := b.1][c.0 := c.1][d.0 := d.1], [e]);
      { assert [e][1..] == []; }
      m[a.0 := a.1][b.0 := b.1][c.0 := c.1][d.0 := d.1][e.0 := e.1];
    }
  }

  lemma SetAllSix(m: map<string, string>, a: (string, string), b: (string, string), c: (string, string),
                  d: (string, string), e: (string, string), f: (string, string))
    ensures SetAll(m, [a, b, c, d, e, f]) == m[a.0 := a.1][b.0 := b.1][c.0 := c.1][d.0 := d.1][e.0 := e.1][f.0 := f.1]
  {
    assert [a, b, c, d, e, f][1..] == [b, c, d, e, f];
    SetAllFive(m[a.0 := a.1], b, c, d, e, f);
  }

  lemma ReplyMapIsBulbData()
    ensures SetAll(map[Status := Status], HeadFields + ModelFields + StateFields) == BulbData
  {
    var m0 := map[Status := Status];
    SetAllConcat(m0, HeadFields + ModelFields, StateFields);
    SetAllConcat(m0, HeadFields, ModelFields);
    var h := HeadFields;
    SetAllSix(m0, h[0], h[1], h[2], h[3], h[4], h[5]);
    var m1 := SetAll(m0, h);
    var md := ModelFields;
    SetAllSix(m1, md[0], md[1], md[2], md[3], md[4], md[5]);
    var m2 := SetAll(m1, md);
    var s := StateFields;
    SetAllFive(m2, s[0], s[1], s[2], s[3], s[4]);
  }

  lemma ResponseParses()
    ensures ParseHeaders(Response) == BulbData
  {
    ResponseIsReply();
    ReplyMapIsBulbData();
  }
}
