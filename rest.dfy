/** The publish side: the JSON serializers, the HTTP/1.1 POST header builder, the
    header-value extractor, the mapping of a socket exchange to a response string, and the
    root/leaf split of CreateReading. Reading values and ticks are rendered strings. */
module Rest {
  import opened Common
  import opened Defines
  import SimpleWifi
  import MeshWifi
  import Templates

  // ---------------------------------------------------------------------------------------
  // JSON

  /** What FormatDataToJson reads from one event: its name, the body-location name, the
      tick count and the values, each already rendered as text. */
  datatype Reading = Reading(name: string, body: string, ticks: string, isQuaternion: bool,
                             w: string, x: string, y: string, z: string)

  const SEP: string := ",\n"
  const DOC_HEAD: string := "{\n\t\"things\":[\n"
  const DOC_TAIL: string := "\n\t]\n}"

  /** `"key":"value"`: every value is written as a JSON string. */
  function Member(key: string, value: string): string
  {
    "\"" + key + "\":\"" + value + "\""
  }

  /** One array element: type, body, ticks, W for a quaternion only, then X, Y and Z. */
  function Element(r: Reading): string
  {
    "\t\t{" + Member("type", r.name) + ", " + Member("body", r.body) + ", " + Member("ticks", r.ticks) + ", " +
    (if r.isQuaternion then Member("W", r.w) + ", " else "") +
    Member("X", r.x) + ", " + Member("Y", r.y) + ", " + Member("Z", r.z) + "}"
  }

  function Elements(events: seq<Reading>): (es: seq<string>)
    ensures |es| == |events| && forall k :: 0 <= k < |events| ==> es[k] == Element(events[k])
  {
    seq(|events|, k requires 0 <= k < |events| => Element(events[k]))
  }

  /** The items separated by ",\n", with no separator before the first or after the last. */
  function Join(items: seq<string>): string
  {
    if |items| == 0 then ""
    else if |items| == 1 then items[0]
    else Join(items[..|items| - 1]) + SEP + items[|items| - 1]
  }

  /** Each extra item preceded by ",\n". */
  function ExtrasText(extra: seq<string>): string
  {
    if extra == [] then "" else ExtrasText(extra[..|extra| - 1]) + SEP + extra[|extra| - 1]
  }

  /** The envelope overload's output. */
  function Document(events: seq<Reading>, extra: seq<string>): string
  {
    DOC_HEAD + Join(Elements(events)) + ExtrasText(extra) + DOC_TAIL
  }

  /** FormatDataToJson(events): the elements joined by ",\n", no envelope. */
  method FormatElements(events: seq<Reading>) returns (data: string)
    ensures data == Join(Elements(events))
  {
    ghost var es := Elements(events);
    data := "";
    var i := 1;
    var k := 0;
    while k < |events|
      invariant 0 <= k <= |events| && i == k + 1
      invariant data == Join(es[..k]) + (if 0 < k < |events| then SEP else "")
    {
      JoinStep(es, k, data);
      data := data + Element(events[k]);
      if i < |events| {
        data := data + SEP;
      }
      i := i + 1;
      k := k + 1;
    }
    assert es[..k] == es;
  }

  /** The text of the first k items, with the separator already written after them when
      k > 0, becomes the text of the first k + 1 items once item k is appended. */
  lemma JoinStep(items: seq<string>, k: nat, data: string)
    requires k < |items| && data == Join(items[..k]) + (if k > 0 then SEP else "")
    ensures data + items[k] == Join(items[..k + 1])
  {
    assert items[..k + 1][..k] == items[..k];
  }

  /** FormatDataToJson(events, extra): the envelope around the elements, then ",\n" and
      each extra item verbatim. */
  method FormatDocument(events: seq<Reading>, extra: seq<string>) returns (data: string)
    ensures data == Document(events, extra)
  {
    var elements := FormatElements(events);
    data := DOC_HEAD + elements;
    ghost var head := data;
    if extra != [] {
      var k := 0;
      while k < |extra|
        invariant 0 <= k <= |extra|
        invariant data == head + ExtrasText(extra[..k])
      {
        ExtrasStep(extra, k, head, data);
        data := data + SEP + extra[k];
        k := k + 1;
      }
      assert extra[..k] == extra;
    } else {
      assert data == head + ExtrasText(extra);
    }
    DocumentParts(events, extra, elements, data);
    data := data + DOC_TAIL;
  }

  /** The envelope's head and the elements, then the extras, then the envelope's tail. */
  lemma DocumentParts(events: seq<Reading>, extra: seq<string>, elements: string, body: string)
    requires elements == Join(Elements(events)) && body == DOC_HEAD + elements + ExtrasText(extra)
    ensures body + DOC_TAIL == Document(events, extra)
  {
  }

  /** One more extra item appends a separator and the item. */
  lemma ExtrasStep(extra: seq<string>, k: nat, head: string, data: string)
    requires k < |extra| && data == head + ExtrasText(extra[..k])
    ensures data + SEP + extra[k] == head + ExtrasText(extra[..k + 1])
  {
    assert extra[..k + 1][..k] == extra[..k];
  }

  lemma {:induction false} JoinThenExtras(es: seq<string>, extra: seq<string>)
    requires |es| > 0
    ensures Join(es) + ExtrasText(extra) == Join(es + extra)
    decreases |extra|
  {
    if extra == [] {
      assert es + extra == es;
    } else {
      var init := extra[..|extra| - 1];
      JoinThenExtras(es, init);
      assert (es + extra)[..|es + extra| - 1] == es + init;
    }
  }

  lemma {:induction false} ExtrasAlone(extra: seq<string>)
    requires |extra| > 0
    ensures ExtrasText(extra) == SEP + Join(extra)
    decreases |extra|
  {
    if |extra| > 1 {
      ExtrasAlone(extra[..|extra| - 1]);
    } else {
      assert extra[..0] == [];
    }
  }

  /** The elements followed by the extras are one ",\n"-joined list, with a stray leading
      separator when there are extras but no elements. */
  lemma JoinWithExtras(es: seq<string>, extra: seq<string>)
    ensures Join(es) + ExtrasText(extra) == (if |es| == 0 && |extra| > 0 then SEP else "") + Join(es + extra)
  {
    if |es| > 0 {
      JoinThenExtras(es, extra);
    } else if |extra| > 0 {
      ExtrasAlone(extra);
      assert es + extra == extra;
    } else {
      assert es + extra == [];
    }
  }

  /** The document is one array of the |events| elements followed by the extras, joined by
      ",\n"; when there are no events but some extras, the array opens with a stray ",\n"
      (not valid JSON per section 5 of RFC 8259). */
  lemma DocumentShape(events: seq<Reading>, extra: seq<string>)
    ensures Document(events, extra) ==
              DOC_HEAD + (if |events| == 0 && |extra| > 0 then SEP else "") +
              Join(Elements(events) + extra) + DOC_TAIL
    ensures |Elements(events) + extra| == |events| + |extra|
  {
    var es := Elements(events);
    JoinWithExtras(es, extra);
    Regroup(DOC_HEAD, Join(es), ExtrasText(extra), DOC_TAIL,
            if |events| == 0 && |extra| > 0 then SEP else "", Join(es + extra));
  }

  /** Replacing the middle two pieces of a concatenation by an equal pair. */
  lemma Regroup(head: string, b: string, c: string, tail: string, b': string, c': string)
    requires b + c == b' + c'
    ensures head + b + c + tail == head + b' + c' + tail
  {
    assert head + b + c + tail == head + (b + c) + tail;
    assert head + b' + c' + tail == head + (b' + c') + tail;
  }

  // ---------------------------------------------------------------------------------------
  // HTTP

  /** std::string::insert(pos, t). */
  function Insert(s: string, pos: nat, t: string): string
    requires pos <= |s|
  {
    s[..pos] + t + s[pos..]
  }

  /** BuildPostHeaders(len): the request line and header lines in order, "SRV:PORT" in Host
      and the decimal `len` in Content-Length, and the blank line that ends the header. */
  function BuildPostHeaders(len: int, srv: string, port: string): (r: string)
    ensures r == POST + ("Host: " + srv + ":" + port + "\r\n") + USER + TYPE +
                 ("Content-Length: " + IntToString(len) + "\r\n") + CONN + NEWL
  {
    InsertionPointsPrecedeCrlf();
    InsertIntoHeader(HOST, HOST_INSERT_AT, "Host: ", srv + ":" + port);
    InsertIntoHeader(LENG, LENG_INSERT_AT, "Content-Length: ", IntToString(len));
    POST + Insert(HOST, HOST_INSERT_AT, srv + ":" + port) + USER + TYPE +
    Insert(LENG, LENG_INSERT_AT, IntToString(len)) + CONN + NEWL
  }

  /** Inserting at the end of a header line's name puts the value before its CRLF. */
  lemma InsertIntoHeader(line: string, at: nat, name: string, value: string)
    requires at <= |line| && line[..at] == name && line[at..] == "\r\n"
    ensures at <= |line| && Insert(line, at, value) == name + value + "\r\n"
  {
  }

  /** Everything BuildPostHeaders emits before the Content-Length value. */
  function HeadersBeforeLength(srv: string, port: string): (p: string)
    ensures |p| >= 16 && p[|p| - 16..] == "Content-Length: "
  {
    var fixed := POST + ("Host: " + srv + ":" + port + "\r\n") + USER + TYPE;
    var p := fixed + "Content-Length: ";
    assert p[|fixed|..] == "Content-Length: ";
    p
  }

  /** The Content-Length value is the only text between the fixed header lines and the
      last two lines, and atoi reads it back as exactly `len` (the body length, as section
      3.3.2 of RFC 7230 asks). */
  lemma PostHeadersCarryLength(len: int, srv: string, port: string)
    ensures BuildPostHeaders(len, srv, port) == HeadersBeforeLength(srv, port) + IntToString(len) + "\r\n" + CONN + NEWL
    ensures Atoi(IntToString(len)) == len
  {
    var fixed := POST + ("Host: " + srv + ":" + port + "\r\n") + USER + TYPE;
    var v := IntToString(len);
    assert fixed + ("Content-Length: " + v + "\r\n") == fixed + "Content-Length: " + v + "\r\n";
    AtoiOfIntToString(len);
  }

  /** ExtractHttpFieldValue(field, response): "" when the field does not occur; otherwise
      the text from two characters after the field's first occurrence up to the next CRLF,
      or to the end. std::string::substr throws out_of_range when that start lies past the
      end; None models the exception. */
  function ExtractHttpFieldValue(field: string, response: string): (r: Option<string>)
  {
    match Find(response, field, 0)
    case None => Some("")
    case Some(i) =>
      var start := i + |field| + 2;
      if start > |response| then None
      else match Find(response, "\r\n", start)
        case None => Some(response[start..])
        case Some(j) => Some(response[start..j])
  }

  /** The extractor answers "" when the field is absent, throws exactly when the value
      would start past the end of the response, and otherwise returns part of the response. */
  lemma ExtractOutcomes(field: string, response: string)
    ensures Find(response, field, 0).None? ==> ExtractHttpFieldValue(field, response) == Some("")
    ensures ExtractHttpFieldValue(field, response).None? <==>
              Find(response, field, 0).Some? && Find(response, field, 0).value + |field| + 2 > |response|
    ensures ExtractHttpFieldValue(field, response).Some? ==> |ExtractHttpFieldValue(field, response).value| <= |response|
  {
  }

  /** A value that holds no CRLF, so that the line end written after it is the first one. */
  predicate FreeOfLineEnd(v: string)
  {
    forall j :: 0 <= j < |v| ==> !OccursAt(v, "\r\n", j)
  }

  /** For `prefix + field + ": " + v + "\r\n" + rest`, with no earlier occurrence of the
      field and no CRLF inside `v`, the extractor returns `v`. */
  lemma ExtractFindsValue(prefix: string, field: string, v: string, rest: string)
    requires forall j :: 0 <= j < |prefix| ==> !OccursAt(prefix + field + ": " + v + "\r\n" + rest, field, j)
    requires FreeOfLineEnd(v)
    ensures ExtractHttpFieldValue(field, prefix + field + ": " + v + "\r\n" + rest) == Some(v)
  {
    var s := prefix + field + ": " + v + "\r\n" + rest;
    var start := |prefix| + |field| + 2;
    assert s[|prefix|..|prefix| + |field|] == field;
    assert s[start..start + |v|] == v;
    assert s[start + |v|..start + |v| + 2] == "\r\n";
    ExtractFromLayout(field, s, |prefix|, v);
  }

  /** The field first occurring at i, its value v two characters later and a CRLF right
      after v: the extractor answers v. */
  lemma ExtractFromLayout(field: string, s: string, i: nat, v: string)
    requires forall j :: 0 <= j < i ==> !OccursAt(s, field, j)
    requires i + |field| + 2 + |v| + 2 <= |s| && s[i..i + |field|] == field && FreeOfLineEnd(v)
    requires s[i + |field| + 2..i + |field| + 2 + |v|] == v
    requires s[i + |field| + 2 + |v|..i + |field| + 2 + |v| + 2] == "\r\n"
    ensures ExtractHttpFieldValue(field, s) == Some(v)
  {
    var start := i + |field| + 2;
    FindFirst(s, field, 0, i);
    LineEndAfter(s, start, v);
    ExtractBetween(field, s, i, start + |v|);
  }

  /** The first CRLF at or after the start of a CRLF-free value is the one right after it. */
  lemma LineEndAfter(s: string, start: nat, v: string)
    requires start + |v| + 2 <= |s| && FreeOfLineEnd(v)
    requires s[start..start + |v|] == v && s[start + |v|..start + |v| + 2] == "\r\n"
    ensures Find(s, "\r\n", start) == Some(start + |v|)
  {
    assert s[start + |v|] == s[start + |v|..start + |v| + 2][0];
    NoLineEndIn(s, start, v);
    FindFirst(s, "\r\n", start, start + |v|);
  }

  /** With the field first found at i and the next CRLF after it at j, the value is the
      text between them. */
  lemma ExtractBetween(field: string, s: string, i: nat, j: nat)
    requires Find(s, field, 0) == Some(i)
    requires i + |field| + 2 <= j
    requires Find(s, "\r\n", i + |field| + 2) == Some(j)
    ensures ExtractHttpFieldValue(field, s) == Some(s[i + |field| + 2..j])
  {
  }

  /** No CRLF starts inside a copy of a CRLF-free string that a CR follows, not even at
      its last character. */
  lemma NoLineEndIn(s: string, start: nat, v: string)
    requires start + |v| < |s| && s[start..start + |v|] == v && s[start + |v|] == '\r'
    requires FreeOfLineEnd(v)
    ensures forall j :: start <= j < start + |v| ==> !OccursAt(s, "\r\n", j)
  {
    forall j | start <= j < start + |v|
      ensures !OccursAt(s, "\r\n", j)
    {
      if j + 1 < start + |v| {
        assert s[j] == v[j - start] && s[j + 1] == v[j - start + 1];
        assert !OccursAt(v, "\r\n", j - start);
      } else {
        assert s[j + 1] == '\r';
      }
    }
  }

  /** Size of SendToServer's zeroed receive buffer; one recv fills at most all but its
      last byte, so the text read from it is always terminated. */
  const RECV_BUF_SIZE: nat := 500

  /** What one recv can place in the receive buffer. */
  type RecvChunk = b: seq<byte> | |b| < RECV_BUF_SIZE

  /** The socket exchange of SendToServer: which step failed, or the bytes received, which
      are then read from the buffer as a C string. */
  datatype SendOutcome = ConnectFailed | HeaderSendFailed | RecvFailed | Received(bytes: RecvChunk)

  /** SendToServer's answer for each outcome: "7", "8" and "9" for the failures, else the
      value of the "Response" header. */
  function SendToServer(outcome: SendOutcome): (r: Option<string>)
    ensures outcome == ConnectFailed ==> r == Some("7")
    ensures outcome == HeaderSendFailed ==> r == Some("8")
    ensures outcome == RecvFailed ==> r == Some("9")
    ensures outcome.Received? ==> r == ExtractHttpFieldValue("Response", Latin1(CString(outcome.bytes)))
    ensures r.Some? ==> |r.value| < RECV_BUF_SIZE
  {
    match outcome
    case ConnectFailed => Some("7")
    case HeaderSendFailed => Some("8")
    case RecvFailed => Some("9")
    case Received(bytes) =>
      ExtractOutcomes("Response", Latin1(CString(bytes)));
      ExtractHttpFieldValue("Response", Latin1(CString(bytes)))
  }

  // ---------------------------------------------------------------------------------------
  // CreateReading

  /** The mesh and server exchanges of CreateReading, in order. */
  datatype RestStep = RxRound(waitForever: bool) | Post(headers: string, body: string) | TxRound(payload: string)

  /** The root's result for a server response: atoi of it, or REST_OK when it is empty. */
  function RootResult(response: string): int
  {
    if response == "" then REST_OK else Atoi(response)
  }

  /** The leaf's result for the first entry it received: atoi of it, unless it is empty or
      contains "No data:". */
  function LeafResult(entry: string): int
  {
    if entry != "" && Find(entry, "No data:", 0).None? then Atoi(entry) else REST_OK
  }

  /** The failure strings of SendToServer read, after atoi, as three unrelated rerror
      codes: a connect failure looks like a linear-acceleration request, a header send
      failure like a gravity request and a receive failure like lost WiFi. */
  lemma {:induction false} SendFailuresCollide()
    ensures RootResult(SendToServer(ConnectFailed).value) == REST_REQUEST_LINEARA
    ensures RootResult(SendToServer(HeaderSendFailed).value) == REST_REQUEST_GRAVITY
    ensures RootResult(SendToServer(RecvFailed).value) == REST_NO_WIFI
  {
    AtoiOfIntToString(7);
    AtoiOfIntToString(8);
    AtoiOfIntToString(9);
  }

  /** Rx marks an empty slot "No data!", which the leaf's "No data:" filter lets through;
      atoi reads it as 0, that is REST_OK. */
  lemma NoDataMarkerReadsAsOk()
    ensures Find("No data!", "No data:", 0).None?
    ensures LeafResult("No data!") == REST_OK
  {
    NoDataMarkerPassesFilter();
    NoDataMarkerIsZero();
  }

  lemma NoDataMarkerPassesFilter()
    ensures Find("No data!", "No data:", 0).None?
  {
    var s := "No data!";
    assert s[..8][7] != "No data:"[7];
    assert !OccursAt(s, "No data:", 0);
  }

  lemma NoDataMarkerIsZero()
    ensures Atoi("No data!") == 0
  {
    var s := "No data!";
    assert SkipSpace(s) == s;
    assert LeadingDigits(s) == [];
  }

  /** In the station-only build CreateReading always takes the root path. */
  lemma StationBuildIsRoot()
    ensures !SimpleWifi.WifiIsMeshEnabled() || SimpleWifi.WifiIsRootNode()
  {
  }

  /** CreateReading's root section: one Rx round without waiting, one post of the document
      built from its events and the received items, then the response (even an empty one)
      sent on to the leaves once. None: the extractor threw. */
  method RootExchange(events: seq<Reading>, srv: string, port: string, rxEntries: seq<string>,
                      outcome: SendOutcome)
    returns (result: Option<int>, steps: seq<RestStep>)
    ensures var body := Document(events, rxEntries);
            var posted := [RxRound(false), Post(BuildPostHeaders(|body|, srv, port), body)];
            match SendToServer(outcome)
            case None => result.None? && steps == posted
            case Some(response) => result == Some(RootResult(response)) && steps == posted + [TxRound(response)]
  {
    steps := [RxRound(false)];
    var data := FormatDocument(events, rxEntries);
    var post := BuildPostHeaders(|data|, srv, port);
    steps := steps + [Post(post, data)];
    assert steps == [RxRound(false), Post(post, data)];
    var response := SendToServer(outcome);
    if response.None? {
      return None, steps;
    }
    var r := REST_OK;
    if response.value != "" {
      r := Atoi(response.value);
    }
    steps := steps + [TxRound(response.value)];
    result := Some(r);
  }

  /** CreateReading's leaf section: its elements sent once, one Rx round that waits, and the
      result read from the first entry. None: Rx returned no entry, and front() of the
      empty vector is undefined. */
  method LeafExchange(events: seq<Reading>, rxEntries: seq<string>) returns (result: Option<int>, steps: seq<RestStep>)
    ensures |rxEntries| == 0 ==> result.None?
    ensures |rxEntries| > 0 ==> result == Some(LeafResult(rxEntries[0]))
    ensures steps == [TxRound(Join(Elements(events))), RxRound(true)]
  {
    var data := FormatElements(events);
    steps := [TxRound(data), RxRound(true)];
    if |rxEntries| == 0 {
      return None, steps;
    }
    var response := rxEntries[0];
    var r := REST_OK;
    if response != "" && Find(response, "No data:", 0).None? {
      r := Atoi(response);
    }
    result := Some(r);
  }

  /** A leaf's one receive that reports an error after writing data yields no entry, so
      the leaf section reaches its undefined front() on an empty vector. */
  lemma FailedLeafReceiveLeavesNoEntry(slots: seq<MeshWifi.RecvSlot>)
    requires |slots| >= 1 && slots[0].result != Templates.ESP_OK && |slots[0].data| > 0
    ensures MeshWifi.RxEntries(slots[..1]) == []
  {
    assert slots[..1][..0] == [];
  }

  /** CreateReading(events). `rxEntries` is what the one Rx round returns and `outcome` the
      socket exchange of the post. Returns REST_NO_WIFI with no exchange when WiFi is down;
      otherwise the root section runs when the mesh is off or this node is its root, and the
      leaf section otherwise. None: the root's extractor threw, or the leaf received no entry. */
  method CreateReading(events: seq<Reading>, status: WifiStatus, meshEnabled: bool, rootNode: bool,
                       srv: string, port: string, rxEntries: seq<string>, outcome: SendOutcome)
    returns (result: Option<int>, steps: seq<RestStep>)
    ensures status == Disconnected ==> result == Some(REST_NO_WIFI) && steps == []
    ensures status == Connected && (!meshEnabled || rootNode) ==>
              var body := Document(events, rxEntries);
              var posted := [RxRound(false), Post(BuildPostHeaders(|body|, srv, port), body)];
              match SendToServer(outcome)
              case None => result.None? && steps == posted
              case Some(response) => result == Some(RootResult(response)) && steps == posted + [TxRound(response)]
    ensures status == Connected && meshEnabled && !rootNode ==>
              (if |rxEntries| == 0 then result.None? else result == Some(LeafResult(rxEntries[0]))) &&
              steps == [TxRound(Join(Elements(events))), RxRound(true)]
  {
    if status == Disconnected {
      return Some(REST_NO_WIFI), [];
    }
    if !meshEnabled || rootNode {
      result, steps := RootExchange(events, srv, port, rxEntries, outcome);
    } else {
      result, steps := LeafExchange(events, rxEntries);
    }
  }
}
