/** The frame codec of src/Message.js: a frame is a type line, `key:value`
    attribute lines, a blank line and one line of JSON payload. `Encode` and
    `Decode` say what `toString` and `from` compute; the methods `ToString` and
    `From` are the loops of the source, proved to compute them. */
module Message {
  import opened Wrappers
  import opened Strings
  import opened Json

  /** One entry of a frame's attribute object; a value of `None` is
      `undefined` (what `from` stores for a line without a colon). */
  datatype Attr = Attr(key: string, value: Option<string>)

  datatype Message = Message(frameType: string, attributes: seq<Attr>, payload: Json)

  /** `Message.EventTypes` and `Message.Publishers`. */
  const KekeMessage: string := "KEKE_MESSAGE"
  const ChatMessage: string := "CHAT_MESSAGE"
  const DeleteMedia: string := "DELETE_MEDIA"
  const Server: string := "SERVER"
  const ClientTransport: string := "CLIENT_TRANSPORT"

  /** The static properties of the `Message` class, by name: the tables
      `EventTypes` and `Publishers`. Any other name reads `undefined`. */
  function StaticTable(name: string): (r: Option<Json>)
    ensures r.Some? <==> name == "EventTypes" || name == "Publishers"
    ensures r.Some? ==> r.value.JObj?
  {
    if name == "EventTypes" then
      Some(JObj([Field("kekeMessage", JStr(KekeMessage)), Field("chatMessage", JStr(ChatMessage)),
                 Field("deleteMedia", JStr(DeleteMedia))]))
    else if name == "Publishers" then
      Some(JObj([Field("server", JStr(Server)), Field("clientTransport", JStr(ClientTransport))]))
    else None
  }

  /** The payload the constructor substitutes when none is given: `{}`. */
  const EmptyObject: Json := JObj([])

  /** `new Message(type, attributes, payload)`; `None` is an omitted (or
      `undefined`) argument, which takes the default `{}`. */
  function Construct(frameType: string, attributes: Option<seq<Attr>>, payload: Option<Json>): (m: Message)
    ensures m.frameType == frameType
    ensures attributes.None? ==> GetPublisher(m) == None
    ensures payload.None? ==> GetContent(m) == Success(None) && GetReplyPublicIds(m) == Success(JArr([]))
  {
    Message(frameType,
            if attributes.Some? then attributes.value else [],
            if payload.Some? then payload.value else EmptyObject)
  }

  // ---------------------------------------------------------------- attributes

  predicate DistinctAttrKeys(attrs: seq<Attr>)
  {
    forall i, j :: 0 <= i < j < |attrs| ==> attrs[i].key != attrs[j].key
  }

  /** `attributes[key]`: `None` when the key is absent, otherwise the stored
      value (itself possibly `undefined`). */
  function Find(attrs: seq<Attr>, key: string): (r: Option<Option<string>>)
    ensures r.None? <==> forall i :: 0 <= i < |attrs| ==> attrs[i].key != key
    ensures r.Some? ==> exists i :: 0 <= i < |attrs| && attrs[i] == Attr(key, r.value)
  {
    if |attrs| == 0 then None
    else if attrs[0].key == key then Some(attrs[0].value)
    else Find(attrs[1..], key)
  }

  /** `attributes[key] = value` on a JavaScript object: an existing key keeps
      its place and takes the new value, a new key goes at the end. */
  function Put(attrs: seq<Attr>, key: string, value: Option<string>): (r: seq<Attr>)
    ensures Find(r, key) == Some(value)
    ensures Find(attrs, key).None? ==> r == attrs + [Attr(key, value)]
  {
    if |attrs| == 0 then [Attr(key, value)]
    else if attrs[0].key == key then [Attr(key, value)] + attrs[1..]
    else [attrs[0]] + Put(attrs[1..], key, value)
  }

  /** Storing under one key leaves every other key as it was. */
  lemma {:induction false} PutOther(attrs: seq<Attr>, key: string, value: Option<string>, other: string)
    requires other != key
    ensures Find(Put(attrs, key, value), other) == Find(attrs, other)
  {
    if |attrs| > 0 && attrs[0].key != key {
      PutOther(attrs[1..], key, value, other);
    }
  }

  /** A repeated key ends with its last value: a second write to the same key
      undoes the first. */
  lemma {:induction false} PutTwice(attrs: seq<Attr>, key: string, first: Option<string>, second: Option<string>)
    ensures Put(Put(attrs, key, first), key, second) == Put(attrs, key, second)
  {
    if |attrs| > 0 && attrs[0].key != key {
      PutTwice(attrs[1..], key, first, second);
      assert Put(attrs, key, first)[1..] == Put(attrs[1..], key, first);
    }
  }

  // ---------------------------------------------------------------- encoding

  /** `'' + attr`: an `undefined` value is written as the word "undefined". */
  function ValueText(v: Option<string>): string
  {
    if v.Some? then v.value else "undefined"
  }

  function AttrLine(a: Attr): string
  {
    a.key + ":" + ValueText(a.value)
  }

  /** One `name:value\n` per attribute, in attribute order. */
  function AttrLines(attrs: seq<Attr>): string
  {
    if |attrs| == 0 then "" else AttrLine(attrs[0]) + "\n" + AttrLines(attrs[1..])
  }

  function AttrLineSeq(attrs: seq<Attr>): (lines: seq<string>)
  {
    seq(|attrs|, i requires 0 <= i < |attrs| => AttrLine(attrs[i]))
  }

  /** The payload line: the JSON of a truthy payload, nothing otherwise. */
  function PayloadText(payload: Json, codec: JsonCodec): string
  {
    if Truthy(payload) then codec.stringify(payload) else ""
  }

  /** What `toString` returns. */
  function Encode(m: Message, codec: JsonCodec): string
  {
    m.frameType + "\n" + AttrLines(m.attributes) + "\n" + PayloadText(m.payload, codec)
  }

  lemma {:induction false} AttrLinesSnoc(attrs: seq<Attr>, a: Attr)
    ensures AttrLines(attrs + [a]) == AttrLines(attrs) + AttrLine(a) + "\n"
  {
    if |attrs| > 0 {
      assert (attrs + [a])[1..] == attrs[1..] + [a];
      AttrLinesSnoc(attrs[1..], a);
    }
  }

  lemma AppendAttrLine(head: string, attrs: seq<Attr>, i: nat)
    requires i < |attrs|
    ensures head + AttrLines(attrs[..i]) + AttrLine(attrs[i]) + "\n" == head + AttrLines(attrs[..i + 1])
  {
    AttrLinesSnoc(attrs[..i], attrs[i]);
    assert attrs[..i + 1] == attrs[..i] + [attrs[i]];
  }

  /** `toString`: the accumulator loop of the source. */
  method ToString(m: Message, codec: JsonCodec) returns (str: string)
    ensures str == Encode(m, codec)
  {
    var attrs := m.attributes;
    str := "";
    str := str + m.frameType + "\n";
    ghost var head := str;
    var i := 0;
    while i < |attrs|
      invariant 0 <= i <= |attrs|
      invariant str == head + AttrLines(attrs[..i])
    {
      var line := AttrLine(attrs[i]);
      AppendAttrLine(head, attrs, i);
      str := str + line + "\n";
      i := i + 1;
    }
    assert attrs[..i] == attrs;
    assert str == m.frameType + "\n" + AttrLines(m.attributes);
    str := str + "\n";
    if Truthy(m.payload) {
      str := str + codec.stringify(m.payload);
    } else {
      assert str == str + PayloadText(m.payload, codec);
    }
  }

  // ---------------------------------------------------------------- decoding

  datatype DecodeError = InvalidJson(line: string)

  /** `line.split(':')`: the key is the text before the first colon, the
      value the text between the first and the second colon, `undefined` if
      there is no colon. */
  function ParseAttrLine(line: string): Attr
  {
    var tokens := Split(line, ':');
    Attr(tokens[0], if |tokens| > 1 then Some(tokens[1]) else None)
  }

  /** The attribute loop of `from`: lines up to the first empty line (which is
      consumed) or the end of input, stored one after another into `acc`.
      Returns the attributes and the lines after the empty line. */
  function ReadAttrs(lines: seq<string>, acc: seq<Attr>): (seq<Attr>, seq<string>)
    decreases |lines|
  {
    if |lines| == 0 then (acc, [])
    else if lines[0] == "" then (acc, lines[1..])
    else
      var a := ParseAttrLine(lines[0]);
      ReadAttrs(lines[1..], Put(acc, a.key, a.value))
  }

  /** Only the first line after the blank line is read; a missing or empty
      one means no payload. */
  function ParsePayload(rest: seq<string>, codec: JsonCodec): Result<Option<Json>, DecodeError>
  {
    if |rest| == 0 || rest[0] == "" then Success(None)
    else
      match codec.parse(rest[0])
      case None => Failure(InvalidJson(rest[0]))
      case Some(v) => Success(Some(v))
  }

  /** What `Message.from` returns; a payload line JSON.parse rejects is the
      exception it throws. */
  function Decode(s: string, codec: JsonCodec): Result<Message, DecodeError>
  {
    DecodeLines(Split(s, '\n'), codec)
  }

  function DecodeLines(lines: seq<string>, codec: JsonCodec): Result<Message, DecodeError>
    requires |lines| >= 1
  {
    var read := ReadAttrs(lines[1..], []);
    var payload :- ParsePayload(read.1, codec);
    Success(Construct(lines[0], Some(read.0), payload))
  }

  /** `lines.shift()`: the first line, `undefined` once the lines are used up. */
  function Shift(lines: seq<string>): (Option<string>, seq<string>)
  {
    if |lines| == 0 then (None, []) else (Some(lines[0]), lines[1..])
  }

  /** The lines still to be read, with the current line put back in front. */
  function Pending(current: Option<string>, lines: seq<string>): seq<string>
  {
    if current.Some? then [current.value] + lines else lines
  }

  /** `Message.from`: the shifting loop of the source. */
  method From(str: string, codec: JsonCodec) returns (r: Result<Message, DecodeError>)
    ensures r == Decode(str, codec)
  {
    var lines := Split(str, '\n');
    var frameType := lines[0];
    lines := lines[1..];
    ghost var afterType := lines;
    var attributes: seq<Attr> := [];
    var currentLine: Option<string>;
    currentLine, lines := Shift(lines).0, Shift(lines).1;
    while currentLine.Some? && currentLine.value != ""
      invariant currentLine.None? ==> lines == []
      invariant ReadAttrs(Pending(currentLine, lines), attributes) == ReadAttrs(afterType, [])
      decreases |lines|, currentLine.Some?
    {
      var tokens := Split(currentLine.value, ':');
      var key := tokens[0];
      var value := if |tokens| > 1 then Some(tokens[1]) else None;
      attributes := Put(attributes, key, value);
      currentLine, lines := Shift(lines).0, Shift(lines).1;
    }
    var rest := ReadAttrs(afterType, []).1;
    assert rest == lines;
    currentLine, lines := Shift(lines).0, Shift(lines).1;
    var payload: Option<Json> := None;
    if currentLine.Some? && currentLine.value != "" {
      var parsed := codec.parse(currentLine.value);
      if parsed.None? {
        return Failure(InvalidJson(currentLine.value));
      }
      payload := parsed;
    }
    r := Success(Construct(frameType, Some(attributes), payload));
  }

  // ---------------------------------------------------------------- accessors

  datatype Sender = Sender(publicId: Option<Json>, nickName: Option<Json>)

  /** `getContent()`: the payload's `content`. */
  function GetContent(m: Message): (r: Result<Option<Json>, JsError>)
    ensures r.Failure? <==> m.payload.JNull?
  {
    Get(m.payload, "content")
  }

  /** `getSender()`: the payload's `senderPublicId` and `senderNickName`. */
  function GetSender(m: Message): (r: Result<Sender, JsError>)
    ensures r.Failure? <==> m.payload.JNull?
  {
    match m.payload
    case JNull => Failure(TypeError)
    case _ => Success(Sender(Get(m.payload, "senderPublicId").value, Get(m.payload, "senderNickName").value))
  }

  /** `getEventType()`: the payload's `eventType`. */
  function GetEventType(m: Message): (r: Result<Option<Json>, JsError>)
    ensures r.Failure? <==> m.payload.JNull?
  {
    Get(m.payload, "eventType")
  }

  /** `getReplyPublicIds()`: `payload.payload.replyPublicIds` when both are
      truthy, otherwise a fresh empty list. */
  function GetReplyPublicIds(m: Message): (r: Result<Json, JsError>)
    ensures r.Failure? <==> m.payload.JNull?
    ensures r.Success? ==> r.value == JArr([]) || Truthy(r.value)
  {
    var inner :- Get(m.payload, "payload");
    if inner.Some? && Truthy(inner.value) then
      var ids := Get(inner.value, "replyPublicIds");
      if ids.Success? && ids.value.Some? && Truthy(ids.value.value) then Success(ids.value.value)
      else Success(JArr([]))
    else Success(JArr([]))
  }

  /** `getReplyPublicIds()` hands back the nested list itself when the
      payload holds a truthy one, and an empty list in its place when it holds
      a falsy one, ... */
  lemma ReplyPublicIdsPresent(m: Message, inner: seq<Field>, ids: Json)
    requires m.payload.JObj? && Lookup(m.payload.fields, "payload") == Some(JObj(inner))
    requires Lookup(inner, "replyPublicIds") == Some(ids)
    ensures GetReplyPublicIds(m) == Success(if Truthy(ids) then ids else JArr([]))
  {
  }

  /** ... and the empty list, without failing, when the payload has no nested
      payload or the nested payload no reply ids. */
  lemma ReplyPublicIdsAbsent(m: Message)
    requires m.payload.JObj?
    requires var inner := Lookup(m.payload.fields, "payload");
      inner.None? || (inner.value.JObj? && Lookup(inner.value.fields, "replyPublicIds").None?)
    ensures GetReplyPublicIds(m) == Success(JArr([]))
  {
  }

  /** `getPublisher()`: the `publisher` attribute, `undefined` if absent. */
  function GetPublisher(m: Message): (r: Option<string>)
    ensures r.Some? ==> exists i :: 0 <= i < |m.attributes| && m.attributes[i] == Attr("publisher", r)
    ensures DistinctAttrKeys(m.attributes) ==>
      forall i :: 0 <= i < |m.attributes| && m.attributes[i].key == "publisher" ==> r == m.attributes[i].value
  {
    var v := Find(m.attributes, "publisher");
    if v.Some? then v.value else None
  }

  // ---------------------------------------------------------------- laws

  /** An attribute that survives the trip through its text line: a key and a
      (defined) value with neither a colon nor a line break. */
  predicate PlainAttr(a: Attr)
  {
    && ':' !in a.key && '\n' !in a.key
    && a.value.Some? && ':' !in a.value.value && '\n' !in a.value.value
  }

  /** The frames `from` reads back exactly as `toString` wrote them. */
  predicate Transparent(m: Message)
  {
    && '\n' !in m.frameType
    && DistinctAttrKeys(m.attributes)
    && (forall i :: 0 <= i < |m.attributes| ==> PlainAttr(m.attributes[i]))
    && WellFormed(m.payload)
  }

  lemma {:induction false} JoinAttrLines(attrs: seq<Attr>, rest: seq<string>)
    requires |rest| >= 1
    ensures Join(AttrLineSeq(attrs) + rest, '\n') == AttrLines(attrs) + Join(rest, '\n')
  {
    if |attrs| > 0 {
      var lines := AttrLineSeq(attrs) + rest;
      assert lines[0] == AttrLine(attrs[0]);
      assert lines[1..] == AttrLineSeq(attrs[1..]) + rest;
      JoinAttrLines(attrs[1..], rest);
    } else {
      assert AttrLineSeq(attrs) + rest == rest;
    }
  }

  /** The encoded frame is its lines joined by line breaks. */
  lemma EncodeAsJoin(m: Message, codec: JsonCodec)
    ensures Encode(m, codec)
         == Join([m.frameType] + AttrLineSeq(m.attributes) + ["", PayloadText(m.payload, codec)], '\n')
  {
    var p := PayloadText(m.payload, codec);
    var parts := [m.frameType] + AttrLineSeq(m.attributes) + ["", p];
    assert parts[1..] == AttrLineSeq(m.attributes) + ["", p];
    JoinAttrLines(m.attributes, ["", p]);
    assert Join(["", p], '\n') == "" + "\n" + p;
  }

  lemma ParsePlainAttrLine(a: Attr)
    requires PlainAttr(a)
    ensures ParseAttrLine(AttrLine(a)) == a && AttrLine(a) != "" && '\n' !in AttrLine(a)
  {
    var k, v := a.key, a.value.value;
    assert AttrLine(a) == Join([k, v], ':');
    SplitJoin([k, v], ':');
  }

  /** Reading the lines of plain attributes with distinct keys, up to the
      empty line that follows them, stores exactly those attributes. */
  lemma {:induction false} ReadPlainAttrs(attrs: seq<Attr>, acc: seq<Attr>, lines: seq<string>)
    requires DistinctAttrKeys(acc + attrs)
    requires forall i :: 0 <= i < |attrs| ==> PlainAttr(attrs[i])
    requires |lines| > |attrs| && lines[|attrs|] == ""
    requires forall i :: 0 <= i < |attrs| ==> lines[i] == AttrLine(attrs[i])
    ensures ReadAttrs(lines, acc) == (acc + attrs, lines[|attrs| + 1..])
  {
    if |attrs| == 0 {
      assert acc + attrs == acc;
    } else {
      FreshKey(acc, attrs);
      ReadPlainStep(attrs[0], lines, acc);
      AccCons(acc, attrs);
      ReadPlainAttrs(attrs[1..], acc + [attrs[0]], lines[1..]);
      assert lines[1..][|attrs| - 1 + 1..] == lines[|attrs| + 1..];
    }
  }

  lemma AccCons(acc: seq<Attr>, attrs: seq<Attr>)
    requires |attrs| > 0
    ensures acc + [attrs[0]] + attrs[1..] == acc + attrs
  {
    assert attrs == [attrs[0]] + attrs[1..];
  }

  lemma ReadPlainStep(a: Attr, lines: seq<string>, acc: seq<Attr>)
    requires PlainAttr(a) && Find(acc, a.key).None?
    requires |lines| > 0 && lines[0] == AttrLine(a)
    ensures ReadAttrs(lines, acc) == ReadAttrs(lines[1..], acc + [a])
  {
    ParsePlainAttrLine(a);
  }

  lemma FreshKey(acc: seq<Attr>, attrs: seq<Attr>)
    requires |attrs| > 0 && DistinctAttrKeys(acc + attrs)
    ensures Find(acc, attrs[0].key).None?
  {
    var all := acc + attrs;
    forall i | 0 <= i < |acc|
      ensures acc[i].key != attrs[0].key
    {
      assert all[i] == acc[i] && all[|acc|] == attrs[0];
    }
  }

  /** Lines of plain attributes hold no line break. */
  lemma PlainLinesUnbroken(attrs: seq<Attr>)
    requires forall i :: 0 <= i < |attrs| ==> PlainAttr(attrs[i])
    ensures forall i :: 0 <= i < |attrs| ==> '\n' !in AttrLineSeq(attrs)[i]
  {
    forall i | 0 <= i < |attrs| {
      ParsePlainAttrLine(attrs[i]);
    }
  }

  /** The lines `toString` writes, in order. */
  function FrameLines(m: Message, codec: JsonCodec): (parts: seq<string>)
    requires Lawful(codec) && Transparent(m)
    ensures parts == [m.frameType] + AttrLineSeq(m.attributes) + ["", PayloadText(m.payload, codec)]
    ensures forall i :: 0 <= i < |parts| ==> '\n' !in parts[i]
  {
    var lines := AttrLineSeq(m.attributes);
    var p := PayloadText(m.payload, codec);
    var parts := [m.frameType] + lines + ["", p];
    PlainLinesUnbroken(m.attributes);
    assert '\n' !in p;
    assert forall i :: 0 < i <= |lines| ==> parts[i] == lines[i - 1];
    parts
  }

  /** Reading the lines of a transparent frame, whatever lines follow them,
      gives the frame back, with `{}` in place of a falsy payload. */
  lemma DecodeFrameLines(m: Message, codec: JsonCodec, more: seq<string>)
    requires Lawful(codec) && Transparent(m)
    ensures DecodeLines(FrameLines(m, codec) + more, codec)
         == Success(if Truthy(m.payload) then m else m.(payload := EmptyObject))
  {
    var p := PayloadText(m.payload, codec);
    var lines := FrameLines(m, codec) + more;
    var n := |m.attributes|;
    AfterFrameType(m, codec, more);
    assert [] + m.attributes == m.attributes;
    ReadPlainAttrs(m.attributes, [], lines[1..]);
    assert lines[1..][n + 1..] == [p] + more;
    ParseWrittenPayload(m.payload, codec, more);
  }

  lemma AfterFrameType(m: Message, codec: JsonCodec, more: seq<string>)
    requires Lawful(codec) && Transparent(m)
    ensures var lines := FrameLines(m, codec) + more;
      && |lines| == |m.attributes| + 3 + |more|
      && lines[0] == m.frameType
      && (forall i :: 0 <= i < |m.attributes| ==> lines[1..][i] == AttrLine(m.attributes[i]))
      && lines[1..][|m.attributes|] == ""
      && lines[1..][|m.attributes| + 1..] == [PayloadText(m.payload, codec)] + more
  {
  }

  /** The payload line `toString` writes reads back as the payload when it is
      truthy, and as no payload otherwise. */
  lemma ParseWrittenPayload(v: Json, codec: JsonCodec, more: seq<string>)
    requires Lawful(codec) && WellFormed(v)
    ensures ParsePayload([PayloadText(v, codec)] + more, codec)
         == Success(if Truthy(v) then Some(v) else None)
  {
  }

  /** Round trip: decoding the text of a transparent frame with a truthy
      payload gives the frame back. */
  lemma RoundTrip(m: Message, codec: JsonCodec)
    requires Lawful(codec)
    requires Transparent(m) && Truthy(m.payload)
    ensures Decode(Encode(m, codec), codec) == Success(m)
  {
    var parts := FrameLines(m, codec);
    EncodeAsJoin(m, codec);
    SplitJoin(parts, '\n');
    DecodeFrameLines(m, codec, []);
    assert parts + [] == parts;
  }

  /** Lines after the payload line are never read: text appended after a
      line break does not change the decoded frame. */
  lemma TrailingLinesIgnored(m: Message, codec: JsonCodec, junk: string)
    requires Lawful(codec)
    requires Transparent(m) && Truthy(m.payload)
    ensures Decode(Encode(m, codec) + "\n" + junk, codec) == Success(m)
  {
    var parts := FrameLines(m, codec);
    EncodeAsJoin(m, codec);
    SplitJoinThen(parts, junk, '\n');
    DecodeFrameLines(m, codec, Split(junk, '\n'));
  }

  /** A falsy payload writes no payload line, so it comes back as the
      constructor default `{}`. */
  lemma FalsyPayloadComesBackEmpty(m: Message, codec: JsonCodec)
    requires Lawful(codec)
    requires Transparent(m) && !Truthy(m.payload)
    ensures Decode(Encode(m, codec), codec) == Success(m.(payload := EmptyObject))
  {
    var parts := FrameLines(m, codec);
    EncodeAsJoin(m, codec);
    SplitJoin(parts, '\n');
    DecodeFrameLines(m, codec, []);
    assert parts + [] == parts;
  }

  /** A frame of a type line alone (no attribute lines, no blank line) reads
      as that type with no attributes and the default payload `{}`. */
  lemma TypeOnlyFrame(t: string, codec: JsonCodec)
    requires '\n' !in t
    ensures Decode(t, codec) == Success(Message(t, [], EmptyObject))
  {
    SplitWithoutSeparator(t, '\n');
    assert [t][1..] == [];
  }

  /** A value holding a colon is cut at that colon. */
  lemma ColonCutsValue(key: string, value: string, more: string)
    requires ':' !in key && ':' !in value
    ensures ParseAttrLine(key + ":" + value + ":" + more) == Attr(key, Some(value))
  {
    assert key + ":" + value + ":" + more == key + [':'] + (value + [':'] + more);
    SplitAfterPart(key, value + [':'] + more, ':');
    SplitAfterPart(value, more, ':');
  }

  /** A line without a colon is a key whose value is `undefined`. */
  lemma LineWithoutColon(line: string)
    requires ':' !in line
    ensures ParseAttrLine(line) == Attr(line, None)
  {
    SplitWithoutSeparator(line, ':');
  }

  /** Of two attribute lines with the same key, the second decides the value. */
  lemma RepeatedKeyKeepsLast(first: string, second: string, rest: seq<string>, acc: seq<Attr>)
    requires first != "" && second != ""
    requires ParseAttrLine(first).key == ParseAttrLine(second).key
    ensures ReadAttrs([first, second] + rest, acc) == ReadAttrs([second] + rest, acc)
  {
    var a, b := ParseAttrLine(first), ParseAttrLine(second);
    assert ([first, second] + rest)[1..] == [second] + rest;
    assert ([second] + rest)[1..] == rest;
    PutTwice(acc, a.key, a.value, b.value);
  }
}
