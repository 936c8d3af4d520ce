/**
 * What a bulb sends back. The connection carries lines ended by CR LF; a
 * line holding an object with an "id" answers a request, an object without
 * one is a notification the bulb pushes on its own. The client keeps what it
 * has read in a buffer and hands back the first answer it finds, skipping
 * notifications.
 */
module Replies {
  import opened Wrappers
  import opened Json

  /** A decoded answer, kept as the members json_decode produced. */
  datatype Response = Response(data: seq<Member>)
  {
    /** A response succeeds exactly when it carries no "error" member. */
    predicate IsSuccess()
      ensures IsSuccess() <==> Error().None?
    {
      !HasKey(data, "error")
    }

    function Id(): Option<Json> { Lookup(data, "id") }
    function Result(): Option<Json> { Lookup(data, "result") }
    function Error(): Option<Json> { Lookup(data, "error") }
  }

  /** One line of input, classified. */
  datatype Reply =
    | Answer(response: Response)
    | Notification(members: seq<Member>)
    | Unreadable

  function Classify(line: string): (r: Reply)
    ensures r.Answer? ==> Decode(line) == Some(Obj(r.response.data)) && HasKey(r.response.data, "id")
    ensures r.Notification? ==> Decode(line) == Some(Obj(r.members)) && !HasKey(r.members, "id")
    ensures r.Unreadable? <==> !(Decode(line).Some? && Decode(line).value.Obj?)
  {
    match Decode(line)
    case Some(Obj(m)) => if HasKey(m, "id") then Answer(Response(m)) else Notification(m)
    case _ => Unreadable
  }

  // ---------------------------------------------------------------------
  // Lines

  predicate CrlfAt(s: string, k: int)
  {
    0 <= k && k + 1 < |s| && s[k] == '\r' && s[k + 1] == '\n'
  }

  predicate HasCrlf(s: string)
  {
    exists k :: 0 <= k < |s| && CrlfAt(s, k)
  }

  /** The text before the first CR LF and the text after it. */
  function SplitLine(s: string): (r: Option<(string, string)>)
    ensures r.None? <==> !HasCrlf(s)
    ensures r.Some? ==> s == r.value.0 + "\r\n" + r.value.1 && !HasCrlf(r.value.0)
    decreases |s|
  {
    if |s| < 2 then None
    else if s[0] == '\r' && s[1] == '\n' then
      assert CrlfAt(s, 0);
      Some(([], s[2..]))
    else
      match SplitLine(s[1..])
      case None =>
        assert !HasCrlf(s) by {
          forall k | CrlfAt(s, k) ensures false {
            assert CrlfAt(s[1..], k - 1);
          }
        }
        None
      case Some((l, rest)) =>
        var line := [s[0]] + l;
        assert s == line + "\r\n" + rest;
        assert !HasCrlf(line) by {
          forall k | CrlfAt(line, k) ensures false {
            if k != 0 {
              assert CrlfAt(l, k - 1);
            }
          }
        }
        assert CrlfAt(s, |line|);
        Some((line, rest))
  }

  // ---------------------------------------------------------------------
  // Scanning the buffer

  datatype Scan =
    | Found(response: Response, rest: string)
    | NeedMore(kept: string)

  /**
   * Looks through the complete lines of the buffer, in order, for the first
   * answer; notifications and unreadable lines are dropped. A last,
   * unterminated piece that already reads as an answer is taken as one;
   * otherwise it is kept for the next read.
   */
  function ScanBuffer(buf: string): (r: Scan)
    ensures r.NeedMore? ==> !HasCrlf(r.kept) && |r.kept| <= |buf|
    ensures r.Found? ==> |r.rest| < |buf|
    decreases |buf|
  {
    match SplitLine(buf)
    case Some((line, rest)) =>
      (match Classify(line)
       case Answer(resp) => Found(resp, rest)
       case _ => ScanBuffer(rest))
    case None =>
      match Classify(buf)
      case Answer(resp) => Found(resp, [])
      case _ => NeedMore(buf)
  }

  /** What reading for one response leaves: the response (if the input ran dry first, none), the reads made and the buffer. */
  datatype Outcome = Outcome(response: Option<Response>, readCount: nat, buffer: string)

  /**
   * The reply loop: scan the buffer; while it holds no answer, read the next
   * chunk and append it. When nothing more can be read, no response results.
   */
  function Receive(buf: string, chunks: seq<string>): (o: Outcome)
    ensures o.readCount <= |chunks|
    ensures o.response.None? ==> o.readCount == |chunks| && !HasCrlf(o.buffer)
    decreases |chunks|
  {
    match ScanBuffer(buf)
    case Found(r, rest) => Outcome(Some(r), 0, rest)
    case NeedMore(kept) =>
      if chunks == [] then Outcome(None, 0, kept)
      else
        var o := Receive(kept + chunks[0], chunks[1..]);
        o.(readCount := o.readCount + 1)
  }

  // ---------------------------------------------------------------------
  // Properties

  lemma {:induction false} SplitLineOf(line: string, rest: string)
    requires !HasCrlf(line)
    ensures SplitLine(line + "\r\n" + rest) == Some((line, rest))
    decreases |line|
  {
    var s := line + "\r\n" + rest;
    if line == [] {
      assert s[2..] == rest;
    } else {
      var tail := line[1..];
      assert !HasCrlf(tail) by {
        forall k | 0 <= k < |tail| && CrlfAt(tail, k) ensures false {
          assert CrlfAt(line, k + 1);
        }
      }
      assert s[1..] == tail + "\r\n" + rest;
      SplitLineOf(tail, rest);
      if |line| > 1 {
        assert !CrlfAt(line, 0);
        assert s[1] == line[1];
      }
      assert [s[0]] + tail == line;
    }
  }

  /** A notification (or an unreadable line) in front of the buffer changes nothing. */
  lemma ScanSkips(line: string, rest: string)
    requires !HasCrlf(line) && !Classify(line).Answer?
    ensures ScanBuffer(line + "\r\n" + rest) == ScanBuffer(rest)
  {
    SplitLineOf(line, rest);
  }

  /** An answer on the first line is the one returned; what follows stays in the buffer. */
  lemma ScanFinds(line: string, rest: string)
    requires !HasCrlf(line) && Classify(line).Answer?
    ensures ScanBuffer(line + "\r\n" + rest) == Found(Classify(line).response, rest)
  {
    SplitLineOf(line, rest);
  }

  /** An answer without its CR LF is taken as it is. */
  lemma ScanFindsUnterminated(line: string)
    requires !HasCrlf(line) && Classify(line).Answer?
    ensures ScanBuffer(line) == Found(Classify(line).response, [])
  {
  }

  /** A chunk holding an answer and then a notification: one read, the answer, the notification kept. */
  lemma ReceiveAnswerThenNotification(answer: string, note: string, more: seq<string>)
    requires !HasCrlf(answer) && Classify(answer).Answer?
    requires !HasCrlf(note) && Classify(note).Notification?
    ensures Receive([], [answer + "\r\n" + note + "\r\n"] + more)
         == Outcome(Some(Classify(answer).response), 1, note + "\r\n")
  {
    var chunk := answer + "\r\n" + note + "\r\n";
    var chunks := [chunk] + more;
    assert ScanBuffer([]) == NeedMore([]);
    assert [] + chunks[0] == answer + "\r\n" + (note + "\r\n");
    ScanFinds(answer, note + "\r\n");
    assert chunks[1..] == more;
  }

  /** A first chunk with only a notification: a second read, whose answer is returned. */
  lemma ReceiveNotificationThenAnswer(note: string, answer: string, more: seq<string>)
    requires !HasCrlf(note) && Classify(note).Notification?
    requires !HasCrlf(answer) && Classify(answer).Answer?
    ensures Receive([], [note + "\r\n", answer + "\r\n"] + more)
         == Outcome(Some(Classify(answer).response), 2, [])
  {
    var first, second := note + "\r\n", answer + "\r\n";
    var chunks := [first, second] + more;
    var r := Classify(answer).response;
    ScanFinds(answer, []);
    assert second == answer + "\r\n" + [];
    assert Receive(second, more) == Outcome(Some(r), 0, []);
    ScanSkips(note, []);
    assert first == note + "\r\n" + [];
    assert ScanBuffer(first) == NeedMore([]);
    assert [] + second == second;
    assert Receive(first, [second] + more) == Outcome(Some(r), 1, []);
    assert ScanBuffer([]) == NeedMore([]);
    assert chunks[0] == first && chunks[1..] == [second] + more;
    var empty: string := [];
    assert empty + chunks[0] == first;
    var o := Receive(empty + chunks[0], chunks[1..]);
    assert o == Outcome(Some(r), 1, []);
    assert Receive(empty, chunks) == o.(readCount := o.readCount + 1);
  }

  /** A chunk holding just an answer line: one read, that answer, nothing left over. */
  lemma ReceiveAnswer(answer: string, more: seq<string>)
    requires !HasCrlf(answer) && Classify(answer).Answer?
    ensures Receive([], [answer + "\r\n"] + more) == Outcome(Some(Classify(answer).response), 1, [])
  {
    var chunks := [answer + "\r\n"] + more;
    assert ScanBuffer([]) == NeedMore([]);
    assert [] + chunks[0] == answer + "\r\n" + [];
    ScanFinds(answer, []);
    assert chunks[1..] == more;
  }

  /** A chunk holding an answer without CR LF: one read, and that answer. */
  lemma ReceiveUnterminated(answer: string, more: seq<string>)
    requires !HasCrlf(answer) && Classify(answer).Answer?
    ensures Receive([], [answer] + more) == Outcome(Some(Classify(answer).response), 1, [])
  {
    var chunks := [answer] + more;
    assert ScanBuffer([]) == NeedMore([]);
    assert [] + chunks[0] == answer;
    ScanFindsUnterminated(answer);
    assert chunks[1..] == more;
  }

  /** Encoded text is printable, so it holds no CR LF. */
  lemma PrintableHasNoCrlf(s: string)
    requires IsPrintableAscii(s)
    ensures !HasCrlf(s)
  {
  }

  /**
   * Any encoded value is one line. An object reads back as an answer carrying
   * exactly its members when it has an "id", and as a notification carrying
   * exactly its members when it has none; anything else is unreadable.
   */
  lemma ClassifyEncoded(v: Json)
    ensures !HasCrlf(Encode(v))
    ensures Classify(Encode(v)) == match v
      case Obj(m) => if HasKey(m, "id") then Answer(Response(m)) else Notification(m)
      case _ => Unreadable
  {
    EncodePrintable(v);
    PrintableHasNoCrlf(Encode(v));
    DecodeEncode(v);
  }

  /**
   * A reply json_encode produced and sent without CR LF is returned after one
   * read as the response of exactly its members, whatever its id.
   */
  lemma ReceiveEncodedAnswer(m: seq<Member>, more: seq<string>)
    requires HasKey(m, "id")
    ensures Receive([], [Encode(Obj(m))] + more) == Outcome(Some(Response(m)), 1, [])
  {
    ClassifyEncoded(Obj(m));
    ReceiveUnterminated(Encode(Obj(m)), more);
  }

  // ---------------------------------------------------------------------
  // The reply loop in general: the first answer among the lines read

  /** Each line followed by its CR LF. */
  function Terminated(lines: seq<string>): string
  {
    if lines == [] then [] else lines[0] + "\r\n" + Terminated(lines[1..])
  }

  /** The complete lines of s, each without its CR LF, and the unterminated piece after them. */
  function Lines(s: string): (r: (seq<string>, string))
    ensures s == Terminated(r.0) + r.1
    ensures forall i :: 0 <= i < |r.0| ==> !HasCrlf(r.0[i])
    ensures !HasCrlf(r.1)
    decreases |s|
  {
    match SplitLine(s)
    case None => ([], s)
    case Some((line, rest)) =>
      var t := Lines(rest);
      var lines := [line] + t.0;
      assert lines[0] == line && lines[1..] == t.0;
      assert Terminated(lines) == line + "\r\n" + Terminated(t.0);
      JoinLine(line, Terminated(t.0), t.1);
      assert forall i :: 1 <= i < |lines| ==> lines[i] == t.0[i - 1];
      (lines, t.1)
  }

  /** Where the CR LF sits between a line and the text after it does not matter. */
  lemma JoinLine(line: string, a: string, b: string)
    ensures line + "\r\n" + (a + b) == line + "\r\n" + a + b
  {
  }

  /** A text cuts into complete lines and a last piece in one way only, the one Lines finds. */
  lemma {:induction false} LinesUnique(lines: seq<string>, tail: string)
    requires forall i :: 0 <= i < |lines| ==> !HasCrlf(lines[i])
    requires !HasCrlf(tail)
    ensures Lines(Terminated(lines) + tail) == (lines, tail)
    decreases |lines|
  {
    if lines == [] {
      assert Terminated(lines) + tail == tail;
    } else {
      var rest := Terminated(lines[1..]) + tail;
      assert Terminated(lines) + tail == lines[0] + "\r\n" + rest;
      SplitLineOf(lines[0], rest);
      LinesUnique(lines[1..], tail);
      assert [lines[0]] + lines[1..] == lines;
    }
  }

  /** The position of the first line that reads as an answer, if one does. */
  function FirstAnswer(lines: seq<string>): (k: Option<nat>)
    ensures k.Some? ==> k.value < |lines| && Classify(lines[k.value]).Answer?
    ensures k.Some? ==> forall j :: 0 <= j < k.value ==> !Classify(lines[j]).Answer?
    ensures k.None? ==> forall j :: 0 <= j < |lines| ==> !Classify(lines[j]).Answer?
  {
    if lines == [] then None
    else if Classify(lines[0]).Answer? then Some(0)
    else
      match FirstAnswer(lines[1..])
      case None => None
      case Some(k) => Some(k + 1)
  }

  /**
   * What a scan of the buffer finds, line by line: the first complete line
   * that reads as an answer, leaving the later lines and the last piece
   * behind; failing that, the last piece if it already reads as an answer;
   * otherwise nothing, and the last piece is what is kept.
   */
  lemma {:induction false} ScanBufferLines(buf: string)
    ensures var (lines, tail) := Lines(buf);
      ScanBuffer(buf) == match FirstAnswer(lines)
        case Some(k) => Found(Classify(lines[k]).response, Terminated(lines[k + 1..]) + tail)
        case None => if Classify(tail).Answer? then Found(Classify(tail).response, []) else NeedMore(tail)
    decreases |buf|
  {
    match SplitLine(buf)
    case None =>
    case Some((line, rest)) =>
      var t := Lines(rest);
      var lines := [line] + t.0;
      assert Lines(buf) == (lines, t.1);
      assert lines[1..] == t.0;
      if !Classify(line).Answer? {
        ScanBufferLines(rest);
        match FirstAnswer(t.0)
        case None =>
        case Some(k) =>
          assert lines[k + 1] == t.0[k];
          assert lines[k + 2..] == t.0[k + 1..];
      }
  }

  /** The chunks one after another. */
  function Flat(chunks: seq<string>): string
  {
    if chunks == [] then [] else chunks[0] + Flat(chunks[1..])
  }

  /** When a scan finds no answer, what it keeps stands for the whole buffer once more text arrives. */
  lemma {:induction false} ScanAppend(buf: string, x: string)
    requires ScanBuffer(buf).NeedMore?
    ensures ScanBuffer(buf + x) == ScanBuffer(ScanBuffer(buf).kept + x)
    decreases |buf|
  {
    match SplitLine(buf)
    case None =>
    case Some((line, rest)) =>
      assert buf + x == line + "\r\n" + (rest + x);
      SplitLineOf(line, rest + x);
      ScanAppend(rest, x);
  }

  /** Scanning the buffer and m + 1 chunks is scanning what the buffer kept, the first chunk and m more. */
  lemma PrefixStep(buf: string, chunks: seq<string>, m: nat)
    requires ScanBuffer(buf).NeedMore? && m < |chunks|
    ensures ScanBuffer(buf + Flat(chunks[..m + 1]))
         == ScanBuffer(ScanBuffer(buf).kept + chunks[0] + Flat(chunks[1..][..m]))
  {
    var f := Flat(chunks[1..][..m]);
    assert chunks[..m + 1][1..] == chunks[1..][..m];
    assert Flat(chunks[..m + 1]) == chunks[0] + f;
    ScanAppend(buf, chunks[0] + f);
    assert ScanBuffer(buf).kept + (chunks[0] + f) == ScanBuffer(buf).kept + chunks[0] + f;
  }

  /** One step of the reply loop: with no answer in the buffer, the next chunk is read. */
  lemma ReceiveStep(buf: string, chunks: seq<string>)
    requires ScanBuffer(buf).NeedMore? && chunks != []
    ensures Receive(buf, chunks)
         == Receive(ScanBuffer(buf).kept + chunks[0], chunks[1..]).(readCount := Receive(ScanBuffer(buf).kept + chunks[0], chunks[1..]).readCount + 1)
  {
  }

  /** The reply loop reads no further than needed: no shorter prefix of the buffer and the chunks holds an answer. */
  lemma {:induction false} ReceiveReadsNoFurther(buf: string, chunks: seq<string>)
    ensures forall n :: 0 <= n < Receive(buf, chunks).readCount ==> ScanBuffer(buf + Flat(chunks[..n])).NeedMore?
    decreases |chunks|
  {
    assert buf + Flat(chunks[..0]) == buf;
    if ScanBuffer(buf).NeedMore? && chunks != [] {
      var next := ScanBuffer(buf).kept + chunks[0];
      ReceiveStep(buf, chunks);
      ReceiveReadsNoFurther(next, chunks[1..]);
      forall n | 0 < n < Receive(buf, chunks).readCount
        ensures ScanBuffer(buf + Flat(chunks[..n])).NeedMore?
      {
        PrefixStep(buf, chunks, n - 1);
      }
    }
  }

  /** The response the reply loop returns is what a scan of the buffer and the chunks it read finds, and the scan leaves the new buffer. */
  lemma {:induction false} ReceiveFindsScanned(buf: string, chunks: seq<string>)
    ensures var o := Receive(buf, chunks);
      o.response.Some? ==> ScanBuffer(buf + Flat(chunks[..o.readCount])) == Found(o.response.value, o.buffer)
    decreases |chunks|
  {
    assert buf + Flat(chunks[..0]) == buf;
    if ScanBuffer(buf).NeedMore? && chunks != [] {
      var next := ScanBuffer(buf).kept + chunks[0];
      ReceiveStep(buf, chunks);
      ReceiveFindsScanned(next, chunks[1..]);
      if Receive(buf, chunks).response.Some? {
        PrefixStep(buf, chunks, Receive(next, chunks[1..]).readCount);
      }
    }
  }

  /** Scanning the buffer and all the chunks is scanning what the buffer kept, the first chunk and the rest. */
  lemma FlatStep(buf: string, chunks: seq<string>)
    requires ScanBuffer(buf).NeedMore? && chunks != []
    ensures ScanBuffer(buf + Flat(chunks)) == ScanBuffer(ScanBuffer(buf).kept + chunks[0] + Flat(chunks[1..]))
  {
    var f := Flat(chunks[1..]);
    ScanAppend(buf, chunks[0] + f);
    assert ScanBuffer(buf).kept + (chunks[0] + f) == ScanBuffer(buf).kept + chunks[0] + f;
  }

  /** When the reply loop returns no response, the buffer and all the chunks together hold no answer, and the new buffer is what a scan of them keeps. */
  lemma {:induction false} ReceiveExhausted(buf: string, chunks: seq<string>)
    ensures var o := Receive(buf, chunks);
      o.response.None? ==> ScanBuffer(buf + Flat(chunks)) == NeedMore(o.buffer)
    decreases |chunks|
  {
    if chunks == [] {
      assert buf + Flat(chunks) == buf;
    } else if ScanBuffer(buf).NeedMore? {
      ReceiveStep(buf, chunks);
      ReceiveExhausted(ScanBuffer(buf).kept + chunks[0], chunks[1..]);
      FlatStep(buf, chunks);
    }
  }

  /**
   * The response is the first answer among the complete lines of the buffer
   * and the chunks read, or the unterminated last piece when none of them is
   * an answer.
   */
  lemma ReceiveFirstAnswer(buf: string, chunks: seq<string>)
    ensures var o := Receive(buf, chunks);
      var (lines, tail) := Lines(buf + Flat(chunks[..o.readCount]));
      o.response.Some? ==> match FirstAnswer(lines)
        case Some(k) => Classify(lines[k]) == Answer(o.response.value)
        case None => Classify(tail) == Answer(o.response.value)
  {
    var o := Receive(buf, chunks);
    ReceiveFindsScanned(buf, chunks);
    ScanBufferLines(buf + Flat(chunks[..o.readCount]));
  }

  // ---------------------------------------------------------------------
  // The replies a bulb sends in practice: a space after the first colon and after the comma

  /** An object of two members, written with a space after the first colon and after the comma. */
  function SpacedPair(k1: string, v1: Json, k2: string, v2: Json): string
  {
    "{" + (Quote(k1) + ":" + (" " + (Encode(v1) + ("," + (" " + (Quote(k2) + ":" + (Encode(v2) + "}")))))))
  }

  lemma SkipOneSpace(x: string)
    requires x != [] && !IsWs(x[0])
    ensures SkipWs(" " + x) == x
  {
    assert (" " + x)[1..] == x;
    NoWsAhead(x);
  }

  /** The second member of a spaced pair, after the space that follows the comma. */
  lemma SpacedPairTail(k2: string, v2: Json)
    ensures ParseMembers(" " + (Quote(k2) + ":" + (Encode(v2) + "}"))) == Some(([Member(k2, v2)], []))
  {
    var e2 := Encode(v2);
    var t2 := Quote(k2) + ":" + (e2 + "}");
    ParseEncoded(v2, "}");
    assert "}" + [] == "}";
    MemberHead(k2, e2 + "}");
    MembersLastStep(t2, k2, e2 + "}", v2, []);
    SkipOneSpace(t2);
  }

  lemma DecodeSpacedPair(k1: string, v1: Json, k2: string, v2: Json)
    ensures Decode(SpacedPair(k1, v1, k2, v2)) == Some(Obj([Member(k1, v1), Member(k2, v2)]))
  {
    var e1 := Encode(v1);
    var tail := " " + (Quote(k2) + ":" + (Encode(v2) + "}"));
    var y := " " + (e1 + ("," + tail));
    var x := Quote(k1) + ":" + y;
    assert SpacedPair(k1, v1, k2, v2) == "{" + x;
    SpacedPairTail(k2, v2);
    // the first member, whose value follows a space
    assert ParseValue(y) == Some((v1, "," + tail)) by {
      EncodeStartsToken(v1);
      assert (e1 + ("," + tail))[0] == e1[0];
      SkipOneSpace(e1 + ("," + tail));
      ParseEncoded(v1, "," + tail);
    }
    MemberHead(k1, y);
    MembersMoreStep(x, k1, y, v1, tail, [Member(k2, v2)], []);
    TwoMembers(Member(k1, v1), Member(k2, v2));
    ObjectStep(x, [Member(k1, v1), Member(k2, v2)], []);
    ValueObjDispatch(x);
    NothingToSkip();
  }

  lemma TwoMembers(a: Member, b: Member)
    ensures [a] + [b] == [a, b]
  {
  }

  lemma NothingToSkip()
    ensures SkipWs([]) == []
  {
  }

  lemma QuotePrintable(k: string)
    ensures IsPrintableAscii(Quote(k))
  {
    EscapePrintable(k);
    PrintableConcat("\"", Escape(k));
    PrintableConcat("\"" + Escape(k), "\"");
  }

  lemma SpacedPairPrintable(k1: string, v1: Json, k2: string, v2: Json)
    ensures !HasCrlf(SpacedPair(k1, v1, k2, v2))
  {
    var e1, e2 := Encode(v1), Encode(v2);
    EncodePrintable(v1);
    EncodePrintable(v2);
    QuotePrintable(k1);
    QuotePrintable(k2);
    PrintableConcat(e2, "}");
    PrintableConcat(Quote(k2), ":");
    PrintableConcat(Quote(k2) + ":", e2 + "}");
    var a := Quote(k2) + ":" + (e2 + "}");
    PrintableConcat(" ", a);
    PrintableConcat(",", " " + a);
    PrintableConcat(e1, "," + (" " + a));
    var b := e1 + ("," + (" " + a));
    PrintableConcat(" ", b);
    PrintableConcat(Quote(k1), ":");
    PrintableConcat(Quote(k1) + ":", " " + b);
    PrintableConcat("{", Quote(k1) + ":" + (" " + b));
    PrintableHasNoCrlf(SpacedPair(k1, v1, k2, v2));
  }

  const GeneralError := Obj([Member("code", Int(-5000)), Member("message", Str("general error"))])

  /** The success reply of the bulb test suite, without its CR LF (its text is given by SuccessLineText). */
  const SuccessLine: string := SpacedPair("id", Int(0), "result", Obj([]))

  /** The error reply of the bulb test suite, without its CR LF (its text is given by ErrorLineText). */
  const ErrorLine: string := SpacedPair("id", Int(0), "error", GeneralError)

  /** The notification of the bulb test suite, without its CR LF (its text is given by NotificationLineText). */
  const NotificationLine: string := SpacedPair("method", Str("props"), "params", Obj([]))

  const SuccessResponse := Response([Member("id", Int(0)), Member("result", Obj([]))])

  const ErrorResponse := Response([Member("id", Int(0)), Member("error", GeneralError)])

  // The texts of the three replies, built one short piece at a time.

  /** SpacedPair with its pieces written one after another. */
  lemma SpacedPairFlat(k1: string, v1: Json, k2: string, v2: Json)
    ensures SpacedPair(k1, v1, k2, v2) == "{" + Quote(k1) + ": " + Encode(v1) + ", " + Quote(k2) + ":" + Encode(v2) + "}"
  {
    Flatten(Quote(k1), Encode(v1), Quote(k2), Encode(v2));
  }

  lemma Flatten(q1: string, e1: string, q2: string, e2: string)
    ensures "{" + (q1 + ":" + (" " + (e1 + ("," + (" " + (q2 + ":" + (e2 + "}")))))))
         == "{" + q1 + ": " + e1 + ", " + q2 + ":" + e2 + "}"
  {
  }

  /** A character json_encode writes as it is. */
  predicate IsPlain(c: char)
  {
    0x20 <= c as int < 0x80 && c != '"' && c != '\\' && c != '/'
  }

  lemma {:induction false} PlainEscape(s: string)
    requires forall k :: 0 <= k < |s| ==> IsPlain(s[k])
    ensures Escape(s) == s
  {
    if s != [] {
      PlainEscape(s[1..]);
      assert EscapeChar(s[0]) == [s[0]];
      assert [s[0]] + s[1..] == s;
    }
  }

  lemma QuoteId() ensures Quote("id") == "\"id\"" {}
  lemma QuoteResult() ensures Quote("result") == "\"result\"" {}
  lemma QuoteError() ensures Quote("error") == "\"error\"" {}
  lemma QuoteMethod() ensures Quote("method") == "\"method\"" {}
  lemma QuoteParams() ensures Quote("params") == "\"params\"" {}
  lemma QuoteProps() ensures Encode(Str("props")) == "\"props\"" {}
  lemma QuoteCode() ensures Quote("code") == "\"code\"" {}
  lemma QuoteMessage() ensures Quote("message") == "\"message\"" {}
  lemma EncodeZero() ensures Encode(Int(0)) == "0" && Encode(Obj([])) == "{}" {}
  lemma EncodeMinus5000() ensures Encode(Int(-5000)) == "-5000" {}

  lemma QuoteGeneralErrorPieces()
    ensures Quote("general error") == "\"" + "general error" + "\""
  {
    var s := "general error";
    assert forall k :: 0 <= k < |s| ==> IsPlain(s[k]);
    PlainEscape(s);
  }

  lemma GeneralErrorQuoted()
    ensures "\"" + "general error" + "\"" == "\"general error\""
  {
  }

  lemma QuoteGeneralError()
    ensures Encode(Str("general error")) == "\"general error\""
  {
    QuoteGeneralErrorPieces();
    GeneralErrorQuoted();
  }

  lemma SuccessLineText()
    ensures SuccessLine == "{\"id\": 0, \"result\":{}}"
  {
    SpacedPairFlat("id", Int(0), "result", Obj([]));
    QuoteId();
    QuoteResult();
    EncodeZero();
    SuccessLiteral();
  }

  lemma SuccessLiteral()
    ensures "{" + "\"id\"" + ": " + "0" + ", " + "\"result\"" + ":" + "{}" + "}" == "{\"id\": 0, \"result\":{}}"
  {
  }

  lemma ErrorLineText()
    ensures ErrorLine == "{\"id\": 0, \"error\":{\"code\":-5000,\"message\":\"general error\"}}"
  {
    var head, a, b := "{\"id\": 0, \"error\":", "{\"code\":-5000,", "\"message\":\"general error\"}";
    assert ErrorLine == head + Encode(GeneralError) + "}" by {
      SpacedPairFlat("id", Int(0), "error", GeneralError);
      QuoteId();
      QuoteError();
      EncodeZero();
      ErrorLiteralHead();
    }
    assert Encode(GeneralError) == a + b by {
      GeneralErrorText();
      GeneralErrorSplit();
    }
    Assoc(head, a, b);
    ErrorLiteralCode();
    ErrorLiteralMessage();
    ErrorLiteralTail();
  }

  lemma GeneralErrorSplit()
    ensures "{\"code\":-5000," + "\"message\":\"general error\"}" == "{\"code\":-5000,\"message\":\"general error\"}"
  {
  }

  lemma ErrorLiteralHead()
    ensures "{" + "\"id\"" + ": " + "0" + ", " + "\"error\"" + ":" == "{\"id\": 0, \"error\":"
  {
  }

  lemma ErrorLiteralCode()
    ensures "{\"id\": 0, \"error\":" + "{\"code\":-5000," == "{\"id\": 0, \"error\":{\"code\":-5000,"
  {
  }

  lemma ErrorLiteralMessage()
    ensures "{\"id\": 0, \"error\":{\"code\":-5000," + "\"message\":\"general error\"}"
         == "{\"id\": 0, \"error\":{\"code\":-5000,\"message\":\"general error\"}"
  {
  }

  lemma ErrorLiteralTail()
    ensures "{\"id\": 0, \"error\":{\"code\":-5000,\"message\":\"general error\"}" + "}"
         == "{\"id\": 0, \"error\":{\"code\":-5000,\"message\":\"general error\"}}"
  {
  }

  lemma GeneralErrorText()
    ensures Encode(GeneralError) == "{\"code\":-5000,\"message\":\"general error\"}"
  {
    var m := GeneralError.members;
    assert EncodeMembers(m[1..]) == "\"message\"" + ":" + "\"general error\"" by {
      QuoteMessage();
      QuoteGeneralError();
    }
    assert EncodeMembers(m) == "\"code\"" + ":" + "-5000" + "," + EncodeMembers(m[1..]) by {
      QuoteCode();
      EncodeMinus5000();
    }
    GeneralErrorLiteral();
  }

  lemma GeneralErrorLiteral()
    ensures "{" + ("\"code\"" + ":" + "-5000" + "," + ("\"message\"" + ":" + "\"general error\"")) + "}"
         == "{\"code\":-5000,\"message\":\"general error\"}"
  {
  }

  lemma NotificationLineText()
    ensures NotificationLine == "{\"method\": \"props\", \"params\":{}}"
  {
    SpacedPairFlat("method", Str("props"), "params", Obj([]));
    QuoteMethod();
    QuoteProps();
    QuoteParams();
    EncodeZero();
    NotificationLiteral();
  }

  lemma NotificationLiteral()
    ensures "{" + "\"method\"" + ": " + "\"props\"" + ", " + "\"params\"" + ":" + "{}" + "}"
         == "{\"method\": \"props\", \"params\":{}}"
  {
  }

  /** A spaced pair is one line, and it reads as an answer exactly when one of its keys is "id". */
  lemma ClassifySpacedPair(k1: string, v1: Json, k2: string, v2: Json)
    ensures !HasCrlf(SpacedPair(k1, v1, k2, v2))
    ensures Classify(SpacedPair(k1, v1, k2, v2))
         == if k1 == "id" || k2 == "id" then Answer(Response([Member(k1, v1), Member(k2, v2)]))
            else Notification([Member(k1, v1), Member(k2, v2)])
  {
    DecodeSpacedPair(k1, v1, k2, v2);
    SpacedPairPrintable(k1, v1, k2, v2);
    var m := [Member(k1, v1), Member(k2, v2)];
    assert HasKey(m, "id") <==> k1 == "id" || k2 == "id" by {
      assert m[0].key == k1 && m[1].key == k2;
    }
  }

  /** The success reply reads as an answer, and that answer succeeds. */
  lemma SuccessLineReads()
    ensures !HasCrlf(SuccessLine) && Classify(SuccessLine) == Answer(SuccessResponse)
    ensures SuccessResponse.IsSuccess()
  {
    ClassifySpacedPair("id", Int(0), "result", Obj([]));
    assert SuccessResponse.data[0].key == "id" && SuccessResponse.data[1].key != "error";
  }

  /** The error reply reads as an answer, and that answer does not succeed. */
  lemma ErrorLineReads()
    ensures !HasCrlf(ErrorLine) && Classify(ErrorLine) == Answer(ErrorResponse)
    ensures !ErrorResponse.IsSuccess()
  {
    ClassifySpacedPair("id", Int(0), "error", GeneralError);
    assert ErrorResponse.data[1].key == "error";
  }

  /** The notification reads as one: an object without an id. */
  lemma NotificationLineReads()
    ensures !HasCrlf(NotificationLine)
    ensures Classify(NotificationLine) == Notification([Member("method", Str("props")), Member("params", Obj([]))])
  {
    ClassifySpacedPair("method", Str("props"), "params", Obj([]));
  }

  // ---------------------------------------------------------------------
  // The exchanges of the bulb test suite, from an empty buffer

  /** The success reply ends the exchange after one read; the response succeeds. */
  lemma SuccessExchange(more: seq<string>)
    ensures Receive([], [SuccessLine + "\r\n"] + more) == Outcome(Some(SuccessResponse), 1, [])
    ensures SuccessResponse.IsSuccess()
  {
    SuccessLineReads();
    ReceiveAnswer(SuccessLine, more);
  }

  /** The error reply ends the exchange after one read; the response does not succeed. */
  lemma ErrorExchange(more: seq<string>)
    ensures Receive([], [ErrorLine + "\r\n"] + more) == Outcome(Some(ErrorResponse), 1, [])
    ensures !ErrorResponse.IsSuccess()
  {
    ErrorLineReads();
    ReceiveAnswer(ErrorLine, more);
  }

  /** Success reply and notification in one chunk: one read, success, the notification kept. */
  lemma SuccessThenNotificationExchange(more: seq<string>)
    ensures Receive([], [SuccessLine + "\r\n" + NotificationLine + "\r\n"] + more)
         == Outcome(Some(SuccessResponse), 1, NotificationLine + "\r\n")
  {
    SuccessLineReads();
    NotificationLineReads();
    ReceiveAnswerThenNotification(SuccessLine, NotificationLine, more);
  }

  /** A notification first and the success reply in the next chunk: two reads, success. */
  lemma NotificationThenSuccessExchange(more: seq<string>)
    ensures Receive([], [NotificationLine + "\r\n", SuccessLine + "\r\n"] + more)
         == Outcome(Some(SuccessResponse), 2, [])
  {
    SuccessLineReads();
    NotificationLineReads();
    ReceiveNotificationThenAnswer(NotificationLine, SuccessLine, more);
  }

  /** The get_prop reply, json_encode'd without CR LF: one read, a response of exactly its members, a success. */
  lemma GetPropExchange(more: seq<string>)
    ensures var m := [Member("id", Int(1)), Member("result", Arr([Int(100), Int(100), Str("")]))];
      Receive([], [Encode(Obj(m))] + more) == Outcome(Some(Response(m)), 1, []) && Response(m).IsSuccess()
  {
    var m := [Member("id", Int(1)), Member("result", Arr([Int(100), Int(100), Str("")]))];
    assert m[0].key == "id" && m[1].key != "error";
    ReceiveEncodedAnswer(m, more);
  }

  /** The cron_get reply, json_encode'd without CR LF: one read, a response of exactly its members. */
  lemma CronGetExchange(more: seq<string>)
    ensures var m := [Member("id", Int(1)),
                      Member("result", Obj([Member("type", Int(0)), Member("delay", Int(15)), Member("mix", Int(0))]))];
      Receive([], [Encode(Obj(m))] + more) == Outcome(Some(Response(m)), 1, [])
  {
    var m := [Member("id", Int(1)),
              Member("result", Obj([Member("type", Int(0)), Member("delay", Int(15)), Member("mix", Int(0))]))];
    assert m[0].key == "id";
    ReceiveEncodedAnswer(m, more);
  }
}
