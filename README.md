# Yeelight client: requests, replies, discovery and the bulb factory

A model of the PHP client for Yeelight smart bulbs (emiliopedrollo/yeelight-api-client). The model follows the behaviour that the repository's three test suites pin down. It has three parts.

**The bulb** (`Bulbs`, `Protocol`, `Replies`, `Json`).
- Every command of a bulb is a constructor of `Protocol.Command`. It carries the wrapper method's arguments.
- The request is the JSON object `{"id": hexdec(bulb id), "method": name, "params": [...]}`. It is written compactly, as `json_encode` writes it, followed by CR LF, and sent once with the `NO_FLAG` flags.
- The parameters keep each wrapper's argument order.
- A colour flow (`start_cf`) is flattened into one comma-joined string of all tuple values.
- `Bulbs.Bulb.Invoke` sends the request, then reads chunks of `PACKET_LENGTH` from a scripted socket into the bulb's buffer.
- It scans the complete CR LF lines of the buffer in order:
  - an object with an `id` is the answer;
  - an object without one is a notification and is skipped;
  - a line that does not decode is dropped.
- A last piece without CR LF that already decodes as an answer is taken as the answer. Otherwise it waits for the next chunk.
- Text read past the answer stays in the buffer.
- A response succeeds exactly when it has no `error` member.
- `Json` holds the encoder and a decoder for integers, strings with escapes, arrays, objects and the three literal names. The decoder lets the model state what the far end reads back from a request and how a reply line is classified.

**Discovery** (`Discovery`, `Client`).
- The discovery reply is split into lines at LF.
- Each line is split at its first colon:
  - the key is trimmed as PHP's `trim` does;
  - the value is the rest of the line verbatim, so the leading space and any later colons stay.
- A line without a colon is its own key and value. A later line with the same key wins.
- The values keep the leading space, unlike the optional whitespace that section 3.2 of RFC 7230 strips.
- `Client.YeelightRawClient.Search` does the following:
  1. sends the discovery datagram once to the multicast address;
  2. calls `setBlocking` once;
  3. while `selectRead(timeout)` says yes, reads one packet, parses it, and hands its map to the bulb factory;
  4. files each bulb the factory returns under its ip.

**The bulb factory** (`Factories`).
- `yeelight://host:port` is split into the host (up to the first colon after the scheme) and the decimal port.
- The `id` is kept verbatim.
- Each created bulb gets one new TCP socket from the socket factory.

Three behaviours of the reply loop, as the tests fix them:
- **No id check on replies.** The get_prop and cron_get tests answer a request with id 0 by a reply with id 1 and accept it (tests/Bulb/BulbTest.php:32 and :404), so `Receive` does not compare ids.
- **Replies without CR LF.** Those two tests reply with `json_encode` output that has no CR LF (tests/Bulb/BulbTest.php:49 and :418), so an unterminated piece that decodes as an answer counts as a line.
- **A dry socket gives no response.** When the scripted socket runs dry before an answer, `Invoke` returns `None`. A lost connection is not modelled.

## Model

| member | source | states |
|---|---|---|
| Protocol.Params | tests/Bulb/BulbTest.php:63-66 | each wrapper's arguments in its order; Protocol.WireRoundTrip states that they determine the command again |
| Protocol.RequestJson | tests/Bulb/BulbTest.php:35-38 | the request object with id, method and params; Protocol.RequestRoundTrip states what the far end reads from it |
| Protocol.RequestText | tests/Bulb/BulbTest.php:35-43 | the encoded request followed by CR LF; Protocol.RequestIsOneLine and Protocol.RequestRoundTrip state that it is one line and reads back as the command |
| Protocol.FlowString | tests/Bulb/BulbTest.php:316-323 | the tuple values joined by commas; Protocol.FlowRoundTrip states that it reads back as the flow |
| Protocol.FromWire | tests/Bulb/BulbTest.php:63-66 | reading a method name and parameters back as a command; Protocol.WireRoundTrip states that it inverts the request |
| Protocol.RequestRoundTrip | tests/Bulb/BulbTest.php:35-43 | the line sent for any bulb id and command ends in CR LF, and the far end decodes it to the id read as hexadecimal and exactly that command |
| Protocol.RequestIdOfZero | tests/Bulb/BulbTest.php:26 | with the bulb id "0x0" every request carries the number 0 as its id |
| Protocol.RequestIsOneLine | tests/Bulb/BulbTest.php:35-38 | the request text ends in CR LF and is printable ASCII before it, so it is exactly one line |
| Protocol.WireRoundTrip | tests/Bulb/BulbTest.php:63-66 | the method name and the parameter list of a command determine that command again, each argument at the position of its wrapper (set_ct_abx ct, effect, duration; set_hsv hue, sat, effect, duration; cron_add type, value; set_music action, host, port; toggle, set_default and stop_cf no parameters; set_scene its list unchanged) |
| Protocol.StrValuesOfStrParams | tests/Bulb/BulbTest.php:31-36 | the get_prop parameters are the property names as strings, in order, and read back as those names |
| Protocol.FlowRoundTrip | tests/Bulb/BulbTest.php:316-323 | the flattened flow string reads back as exactly the tuples it came from |
| Protocol.FlowTextsAreInts | tests/Bulb/BulbTest.php:316-322 | the flattening yields four non-empty, comma-free texts per tuple |
| Protocol.FlowStringExample | tests/Bulb/BulbTest.php:316-322 | the flow [[1000,2,2700,100],[500,1,255,10]] flattens to "1000,2,2700,100,500,1,255,10" |
| Json.Encode | tests/Bulb/BulbTest.php:35-38 | json_encode's compact form; Json.DecodeEncode and Json.EncodePrintable state what it promises |
| Json.Decode | tests/Bulb/BulbTest.php:45-49 | json_decode of a whole line; Json.DecodeEncode states that it reads every encoding back |
| Json.DecodeEncode | tests/Bulb/BulbTest.php:35-38 | every encoded value decodes back to itself |
| Json.EncodePrintable | tests/Bulb/BulbTest.php:35-38 | the encoding is printable ASCII: non-ASCII and control characters are escaped |
| Json.Lookup | tests/Bulb/BulbTest.php:32-33 | a key is found exactly when some member carries it, and the value found belongs to such a member |
| Text.ParseIntOfIntText | tests/Bulb/BulbTest.php:322 | the decimal text of every integer, negative ones included, reads back as that integer |
| Text.PrefixedHexText | tests/Bulb/BulbTest.php:36 | hexdec of "0x" followed by the hexadecimal digits of n is n |
| Text.HexDec | tests/Bulb/BulbTest.php:36 | PHP's hexdec, which skips every character that is not a hexadecimal digit; Text.PrefixedHexText and Text.HexDecOfZeros state its values |
| Text.Trim | tests/YeelightRawClientTest.php:39-58 | the result has no trimmable character at either end and is a slice of the input with only trimmable characters cut off before and after it |
| Text.HexDecOfZeros | tests/Bulb/BulbTest.php:26 | a text whose hexadecimal digits are all 0, such as "0x0", has hexdec 0 |
| Text.JoinOfSplit | tests/Bulb/BulbTest.php:322 | joining the parts of a text split at a separator gives the text back |
| Text.SplitOfJoin | tests/Bulb/BulbTest.php:322 | splitting the join of one or more separator-free parts gives exactly those parts |
| Replies.ClassifyEncoded | tests/Bulb/BulbTest.php:18-20 | the encoding of any value is one line; an encoded object reads as an answer with exactly its members when it has an "id" and as a notification with exactly its members when it has none; any other encoded value is unreadable |
| Replies.Response.IsSuccess | tests/Bulb/BulbTest.php:54-107 | a response succeeds exactly when looking up its "error" member finds nothing (the test replies are checked in Replies.SuccessLineReads and Replies.ErrorLineReads) |
| Replies.SplitLine | tests/Bulb/BulbTest.php:128-132 | the buffer splits at its first CR LF into a line without CR LF and the rest, and there is no split exactly when it holds no CR LF |
| Replies.ScanSkips | tests/Bulb/BulbTest.php:160-164 | a notification line at the front of the buffer is dropped without changing the outcome of the scan |
| Replies.ScanFinds | tests/Bulb/BulbTest.php:128-140 | an answer line at the front of the buffer is the response, and everything after it stays in the buffer |
| Replies.ScanFindsUnterminated | tests/Bulb/BulbTest.php:45-49 | an answer without CR LF is taken as the response, leaving nothing behind |
| Replies.ScanBuffer | tests/Bulb/BulbTest.php:128-171 | a scan without an answer keeps no CR LF and no more than the buffer; an answer found leaves a shorter buffer (what it finds is stated by Replies.ScanBufferLines) |
| Replies.Lines | tests/Bulb/BulbTest.php:128-132 | the buffer is its complete lines, each followed by CR LF, and then a last piece; no line and not the last piece holds a CR LF |
| Replies.LinesUnique | tests/Bulb/BulbTest.php:128-132 | any lines without CR LF, terminated and followed by a piece without CR LF, are cut back into exactly those lines and that piece |
| Replies.FirstAnswer | tests/Bulb/BulbTest.php:160-171 | the position found holds an answer and no earlier line does; no position is found only when no line is an answer |
| Replies.ScanBufferLines | tests/Bulb/BulbTest.php:128-171 | a scan finds the first complete line that is an answer and leaves the later lines and the last piece; failing that it takes the last piece when that is an answer; otherwise it keeps the last piece |
| Replies.ScanAppend | tests/Bulb/BulbTest.php:160-171 | after a scan without an answer, what it kept stands for the whole buffer when more text is appended |
| Replies.Receive | tests/Bulb/BulbTest.php:160-164 | never more reads than chunks; no response only when every chunk has been read and the buffer holds no complete line |
| Replies.ReceiveReadsNoFurther | tests/Bulb/BulbTest.php:160-171 | no shorter prefix of the buffer and the chunks than the one the loop read holds an answer |
| Replies.ReceiveFindsScanned | tests/Bulb/BulbTest.php:128-171 | the response is what a scan of the old buffer and the chunks read finds, and the new buffer is what that scan leaves |
| Replies.ReceiveExhausted | tests/Bulb/BulbTest.php:160-164 | without a response, the old buffer and all the chunks hold no answer, and the new buffer is what a scan of them keeps |
| Replies.ReceiveFirstAnswer | tests/Bulb/BulbTest.php:128-171 | the response is the first answer among the complete lines of the old buffer and the chunks read, or their last piece when no complete line is an answer |
| Replies.ReceiveAnswer | tests/Bulb/BulbTest.php:74-78 | one chunk holding an answer line: one read, that answer, an empty buffer |
| Replies.ReceiveAnswerThenNotification | tests/Bulb/BulbTest.php:128-140 | an answer then a notification in one chunk: one read, the answer, the notification line left in the buffer |
| Replies.ReceiveNotificationThenAnswer | tests/Bulb/BulbTest.php:160-171 | a chunk with only a notification, then an answer: exactly two reads, the answer |
| Replies.ReceiveUnterminated | tests/Bulb/BulbTest.php:45-49 | a chunk that holds an answer without CR LF: one read, that answer |
| Replies.ReceiveEncodedAnswer | tests/Bulb/BulbTest.php:45-55 | the json_encode'd text of any object with an id, read in one chunk, gives a response of exactly its members, whatever its id |
| Replies.DecodeSpacedPair | tests/Bulb/BulbTest.php:18-20 | the two-member objects with the spacing of the test replies decode to their two members |
| Replies.ClassifySpacedPair | tests/Bulb/BulbTest.php:18-20 | such an object is one line, and it is an answer exactly when one of its keys is "id" |
| Replies.SuccessLineText | tests/Bulb/BulbTest.php:18 | the modelled success reply is the test's text |
| Replies.ErrorLineText | tests/Bulb/BulbTest.php:19 | the modelled error reply is the test's text |
| Replies.NotificationLineText | tests/Bulb/BulbTest.php:20 | the modelled notification is the test's text |
| Replies.SuccessLineReads | tests/Bulb/BulbTest.php:18 | the success reply is an answer that succeeds |
| Replies.ErrorLineReads | tests/Bulb/BulbTest.php:19 | the error reply is an answer that does not succeed |
| Replies.NotificationLineReads | tests/Bulb/BulbTest.php:20 | the notification is an object without an id, with its method and params members |
| Replies.SuccessExchange | tests/Bulb/BulbTest.php:74-80 | the success reply ends the exchange after one read with a successful response |
| Replies.ErrorExchange | tests/Bulb/BulbTest.php:99-108 | the error reply ends the exchange after one read with a response that does not succeed |
| Replies.SuccessThenNotificationExchange | tests/Bulb/BulbTest.php:128-140 | success reply and notification in one chunk: one read, success, the notification kept |
| Replies.NotificationThenSuccessExchange | tests/Bulb/BulbTest.php:160-171 | notification, then the success reply in the next chunk: two reads, success |
| Replies.GetPropExchange | tests/Bulb/BulbTest.php:32-55 | the get_prop reply with id 1 gives, after one read, a response equal to the decoded reply, which succeeds |
| Replies.CronGetExchange | tests/Bulb/BulbTest.php:404-423 | the cron_get reply gives, after one read, a response equal to the decoded reply |
| Bulbs.Bulb.constructor | tests/Bulb/BulbTest.php:25-26 | the bulb keeps its socket, ip, port and id and starts with an empty buffer |
| Bulbs.Bulb.Served | tests/Bulb/BulbTest.php:40-48 | the new state after a call: the request sent once with NO_FLAG, the chunks Receive takes read with PACKET_LENGTH, Receive's response and buffer, nothing else of the socket changed; Bulbs.Bulb.Invoke ensures it |
| Bulbs.Bulb.Invoke | tests/Bulb/BulbTest.php:40-48 | the request line goes out once with NO_FLAG; the reads, each of PACKET_LENGTH, the response and the buffer left are those of Receive on the old buffer and the socket's chunks; nothing else of the socket changes |
| Bulbs.Bulb.GetProp | tests/Bulb/BulbTest.php:35-51 | Invoke for get_prop with the property names |
| Bulbs.Bulb.SetCtAbx | tests/Bulb/BulbTest.php:63-80 | Invoke for set_ct_abx with ct, effect, duration |
| Bulbs.Bulb.SetRgb | tests/Bulb/BulbTest.php:180-197 | Invoke for set_rgb with rgb, effect, duration |
| Bulbs.Bulb.SetHsv | tests/Bulb/BulbTest.php:206-223 | Invoke for set_hsv with hue, sat, effect, duration |
| Bulbs.Bulb.SetBright | tests/Bulb/BulbTest.php:231-248 | Invoke for set_bright with brightness, effect, duration |
| Bulbs.Bulb.SetPower | tests/Bulb/BulbTest.php:256-273 | Invoke for set_power with power, effect, duration |
| Bulbs.Bulb.Toggle | tests/Bulb/BulbTest.php:278-291 | Invoke for toggle, no parameters |
| Bulbs.Bulb.SetDefault | tests/Bulb/BulbTest.php:296-309 | Invoke for set_default, no parameters |
| Bulbs.Bulb.StartCf | tests/Bulb/BulbTest.php:314-337 | Invoke for start_cf with count, action and the flattened flow |
| Bulbs.Bulb.StopCf | tests/Bulb/BulbTest.php:342-355 | Invoke for stop_cf, no parameters |
| Bulbs.Bulb.SetScene | tests/Bulb/BulbTest.php:360-376 | Invoke for set_scene with its list unchanged |
| Bulbs.Bulb.CronAdd | tests/Bulb/BulbTest.php:381-398 | Invoke for cron_add with type, value |
| Bulbs.Bulb.CronGet | tests/Bulb/BulbTest.php:403-420 | Invoke for cron_get with type |
| Bulbs.Bulb.CronDel | tests/Bulb/BulbTest.php:428-444 | Invoke for cron_del with type |
| Bulbs.Bulb.SetAdjust | tests/Bulb/BulbTest.php:449-468 | Invoke for set_adjust with action, prop |
| Bulbs.Bulb.SetMusic | tests/Bulb/BulbTest.php:473-493 | Invoke for set_music with action, host, port |
| Bulbs.Bulb.SetName | tests/Bulb/BulbTest.php:498-516 | Invoke for set_name with the name |
| Bulbs.AnswerServed | tests/Bulb/BulbTest.php:69-80 | a call answered by one chunk with one answer line: exactly one read of PACKET_LENGTH, one send of the request with NO_FLAG, that answer, nothing left |
| Bulbs.AnswerThenNotificationServed | tests/Bulb/BulbTest.php:128-140 | answer and notification in one chunk: exactly one read, the answer, the notification left in the buffer |
| Bulbs.NotificationThenAnswerServed | tests/Bulb/BulbTest.php:160-171 | a notification chunk, then an answer chunk: exactly two reads of PACKET_LENGTH, the answer |
| RawSocket.Socket.Read | tests/Bulb/BulbTest.php:45-49 | read returns the next scripted chunk, or none once the script has run out, and logs the length asked for |
| RawSocket.Socket.Send | tests/Bulb/BulbTest.php:40-43 | send logs its data and flags and changes nothing else |
| RawSocket.Socket.SendTo | tests/YeelightRawClientTest.php:74-81 | sendTo logs its data, flags and address and changes nothing else |
| RawSocket.Socket.SetBlocking | tests/YeelightRawClientTest.php:83-85 | setBlocking is counted and changes nothing else |
| RawSocket.Socket.SelectRead | tests/YeelightRawClientTest.php:87-91 | selectRead returns the next scripted answer, false once the script has run out, and logs its timeout |
| RawSocket.Factory.CreateTcp4 | tests/Bulb/BulbFactoryTest.php:34-37 | each call opens one new, unused socket and is counted |
| Discovery.ParseLine | tests/YeelightRawClientTest.php:20-58 | one header line as key and value; Discovery.ParseLineSplits states how it splits |
| Discovery.ParseHeaders | tests/YeelightRawClientTest.php:20-58 | the header map of a reply split at LF; Discovery.HeadersKeys, Discovery.HeadersLastWins and Discovery.ParseHeadersOfLines state its contents |
| Discovery.ParseLineSplits | tests/YeelightRawClientTest.php:20-58 | a line without a colon is its own value and, trimmed, its key; otherwise the line is the key's text, its first colon and the value verbatim |
| Discovery.FieldLineParses | tests/YeelightRawClientTest.php:24-44 | an indented "Key:value" line gives the bare key and everything after the first colon, later colons and the leading space included |
| Discovery.HeadersKeys | tests/YeelightRawClientTest.php:39-58 | every key of the map comes from some line |
| Discovery.HeadersLastWins | tests/YeelightRawClientTest.php:39-58 | a key holds the value of the last line that carries it |
| Discovery.ParseHeadersOfLines | tests/YeelightRawClientTest.php:20-37 | parsing lines joined by LF gives the map of those lines |
| Discovery.ParseReply | tests/YeelightRawClientTest.php:20-58 | a status line and indented header lines give the status line mapped to itself, then every pair in order |
| Discovery.ResponseParses | tests/YeelightRawClientTest.php:20-58 | the test's discovery reply parses to exactly the test's map, values with their leading spaces and the empty values of "Date:", "Ext:" and "name:" included |
| Client.ScriptedBulbFactory.Create | tests/YeelightRawClientTest.php:105-109 | create logs the map it is given and returns the next scripted bulb |
| Client.Rounds | tests/YeelightRawClientTest.php:87-97 | no more rounds than selectRead answers or packets; Client.RoundsStops states which rounds are taken |
| Client.ParseAll | tests/YeelightRawClientTest.php:93-109 | one header map per packet, each the parse of the packet at the same position |
| Client.ByIp | tests/YeelightRawClientTest.php:99-113 | the bulbs filed under their ips; Client.ByIpKeys states its keys and values |
| Client.RoundsStops | tests/YeelightRawClientTest.php:87-97 | the loop takes one packet per leading yes of selectRead and stops at the first no, or at the first yes with nothing to read |
| Client.RoundsOfAnswers | tests/YeelightRawClientTest.php:87-97 | k yes answers then a no give exactly k rounds, ended by the no |
| Client.ByIpKeys | tests/YeelightRawClientTest.php:99-113 | the result's keys are the ips of the bulbs, and each bulb is filed under its own ip |
| Client.YeelightRawClient.Admit | tests/YeelightRawClientTest.php:99-109 | the packet's header map goes to the factory once, and the bulb it returns is filed under its ip |
| Client.YeelightRawClient.Round | tests/YeelightRawClientTest.php:87-97 | one selectRead, and on yes one read of PACKET_LENGTH and one hand-over: the loop is one round further, or finished |
| Client.YeelightRawClient.Collect | tests/YeelightRawClientTest.php:87-109 | selectRead was asked once more than packets were taken in; every packet was read with PACKET_LENGTH and its map handed to the factory in order; the result files the returned bulbs by ip |
| Client.YeelightRawClient.Search | tests/YeelightRawClientTest.php:72-111 | one sendTo of the discovery request with NO_FLAG to the multicast address, one setBlocking, then Collect |
| Client.OneReplySearch | tests/YeelightRawClientTest.php:72-115 | selectRead yes then no, one packet, one bulb: one sendTo, one setBlocking, two selectReads with the read timeout, one read of PACKET_LENGTH, one create with the packet's map, and a result of exactly that one bulb |
| Factories.ParseLocation | tests/Bulb/BulbFactoryTest.php:31-41 | a parsed location gives a host without colon, and the location starts with the scheme, that host and a colon |
| Factories.LocationOf | tests/Bulb/BulbFactoryTest.php:31-41 | "yeelight://" + host + ":" + digits reads as that host and the digits' decimal value |
| Factories.LocationRoundTrip | tests/Bulb/BulbFactoryTest.php:31-41 | every address whose host has no colon is read back from its location text |
| Factories.ExampleLocation | tests/Bulb/BulbFactoryTest.php:31-41 | "yeelight://192.168.1.239:55443" gives ip "192.168.1.239" and port 55443 |
| Factories.BulbOfFormatted | tests/Bulb/BulbFactoryTest.php:30-42 | a map holding the location text of any address whose host has no colon and any id describes the bulb at exactly that address with exactly that id |
| Factories.BulbFactory.Create | tests/Bulb/BulbFactoryTest.php:34-42 | a new bulb with the Location's ip and port, the id verbatim, an empty buffer and one freshly created socket; exactly one createTcp4 per bulb, none when the map describes no bulb |
| Factories.ExampleBulb | tests/Bulb/BulbFactoryTest.php:30-42 | the test's map describes the bulb at 192.168.1.239, port 55443, with id "0x0000000000000000" |

## Left out

- The values of `PACKET_LENGTH`, `NO_FLAG`, `DISCOVERY_REQUEST` and `MULTICAST_ADDRESS` are not shown in the tests. They are declared constants without a value.
- The effect, action and adjust constants of the bulb (`EFFECT_SMOOTH`, `ACTION_BEFORE`, `ADJUST_ACTION_INCREASE`, …) are not shown either. The wrappers take them as plain strings and integers.
- Real sockets, UDP multicast, connecting the bulb's socket, and the selectRead timeout are not modelled. The sockets are scripted in-memory objects. The timeout is only logged.
- The argument of `setBlocking` is not pinned by the tests. Only the number of calls is modelled.
- React promises: the wrappers return the response directly.
- Floating-point numbers and exponents in JSON are not modelled: the decoder rejects them.
- The difference between an empty PHP array and an empty object is not modelled. `[]` and `{}` are separate values, each kept as written.
- hexdec on ids wider than 63 bits is not modelled: PHP turns those into floats. `Text.HexDec` is unbounded.
- Bulbs.Bulb.Invoke: a reply whose id differs from the request's is not an error, and a socket that runs dry gives no response instead of a connection-lost error. There is no reconnection.
- Bulbs.Bulb.Invoke: a socket that runs dry ends the loop only after one read finds nothing. A blocking read that waits for more data is not modelled.
- Replies.ScanBuffer: a complete line that does not decode is dropped rather than raising a decode error.
- Factories.ParseLocation: a Location with leading whitespace, as discovery reports it, is rejected. The tests do not pin down how the factory treats that space, so the model does no trimming there. So a discovery header map passed straight to the factory gives no bulb: `ParseLocation(" yeelight://192.168.1.102:55443")` is `None`.
- Factories.ParseLocation: a malformed Location gives no bulb instead of an error, and a failed connection is not modelled.
- Client.YeelightRawClient.Search: the client is given a scripted bulb factory (the test's mock) rather than Factories.BulbFactory.
- Client.YeelightRawClient.Search: each bulb's ip is read once per filing from a constant field, so the count of getIp calls is not modelled.
- Client.OneReplySearch: the test's search is stated for any packet and bulb. Discovery.ResponseParses separately states what the test's packet parses to.
- Discovery.ParseHeaders: a CR before the LF stays part of the value.
