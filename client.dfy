/** The protocol side of src/KekekeClient.js: the SEND frames the bot writes,
    the guard that refuses to send before the socket exists, and the reaction
    to each incoming frame. The socket is modelled by `connected` (the `ws`
    field being set) and by `outbox`, the texts handed to `ws.send` in order. */
module Client {
  import opened Wrappers
  import opened Strings
  import opened Json
  import opened Message

  /** `NotLoggedInError`. */
  datatype ClientError = NotLoggedIn

  /** Frame types of the protocol. */
  const Send: string := "SEND"
  const Subscribe: string := "SUBSCRIBE"
  const Pong: string := "PONG"
  const Connected: string := "CONNECTED"
  const Ping: string := "PING"
  const MessageFrame: string := "MESSAGE"

  /** The `destination` attribute value for a topic. */
  function TopicDestination(topic: string): string
  {
    "/topic/" + topic
  }

  /** A payload property whose value may be `undefined`: JSON.stringify drops
      such a property, so it is only present when defined. */
  function OptField(key: string, v: Option<string>): seq<Field>
  {
    if v.Some? then [Field(key, JStr(v.value))] else []
  }

  /** The sender properties every SEND payload begins with. */
  function SenderFields(colorToken: Option<string>, publicId: Option<string>, nickname: string): seq<Field>
  {
    OptField("senderColorToken", colorToken) + OptField("senderPublicId", publicId)
      + [Field("senderNickName", JStr(nickname))]
  }

  /** The message `sendText` builds; `content` is the already entity-encoded
      text and `date` the decimal millisecond clock. */
  function TextFrame(topic: string, colorToken: Option<string>, publicId: Option<string>, nickname: string,
                     content: string, date: string, replyPublicIds: Json): Message
  {
    Construct(Send, Some([Attr("destination", Some(TopicDestination(topic)))]),
      Some(JObj(TextPayload(colorToken, publicId, nickname, content, date, replyPublicIds))))
  }

  function TextPayload(colorToken: Option<string>, publicId: Option<string>, nickname: string,
                       content: string, date: string, replyPublicIds: Json): seq<Field>
  {
    SenderFields(colorToken, publicId, nickname) + [
      Field("content", JStr(content)),
      Field("date", JStr(date)),
      Field("eventType", JStr(ChatMessage)),
      Field("payload", JObj([Field("replyPublicIds", replyPublicIds)]))]
  }

  /** The message `deleteMedia` builds: like a text frame, but with the
      DELETE_MEDIA event type and no nested payload. */
  function DeleteMediaFrame(topic: string, colorToken: Option<string>, publicId: Option<string>, nickname: string,
                            content: string, date: string): Message
  {
    Construct(Send, Some([Attr("destination", Some(TopicDestination(topic)))]),
      Some(JObj(SenderFields(colorToken, publicId, nickname) + [
        Field("content", JStr(content)),
        Field("date", JStr(date)),
        Field("eventType", JStr(DeleteMedia))])))
  }

  function SubscribeFrame(topic: string): Message
  {
    Construct(Subscribe, Some([Attr("destination", Some(TopicDestination(topic)))]), None)
  }

  function PongFrame(): Message
  {
    Construct(Pong, None, None)
  }

  /** What the `message` handler of the socket does with one incoming text. */
  datatype Reaction =
    | Dropped(error: DecodeError)       // `from` threw; logged and ignored
    | Subscribed(received: Message)     // CONNECTED: subscribe to the topic
    | Ponged(received: Message)         // PING: answer PONG
    | Forwarded(received: Message)      // MESSAGE: emitted to the bot
    | Ignored(received: Message)        // any other frame type

  function React(decoded: Result<Message, DecodeError>): Reaction
  {
    match decoded
    case Failure(e) => Dropped(e)
    case Success(m) =>
      if m.frameType == Connected then Subscribed(m)
      else if m.frameType == Ping then Ponged(m)
      else if m.frameType == MessageFrame then Forwarded(m)
      else Ignored(m)
  }

  /** The frames a reaction sends back. */
  function Replies(reaction: Reaction, topic: string): seq<Message>
  {
    match reaction
    case Subscribed(_) => [SubscribeFrame(topic)]
    case Ponged(_) => [PongFrame()]
    case _ => []
  }

  /** The texts of a list of frames, as `toString` writes them. */
  function Texts(frames: seq<Message>, codec: JsonCodec): seq<string>
  {
    seq(|frames|, i requires 0 <= i < |frames| => Encode(frames[i], codec))
  }

  class KekekeClient {
    const anonymousId: string
    const topic: string
    const nickname: string
    /** JSON.parse and JSON.stringify. */
    const json: JsonCodec
    /** html-entities' `encode`. */
    const entities: string -> string

    /** Set by `login`; `undefined` before. */
    var publicId: Option<string>
    var colorToken: Option<string>
    var kerma: Option<Json>
    /** Whether `this.ws` is set. */
    var connected: bool
    /** The texts given to `ws.send`, oldest first. */
    var outbox: seq<string>

    /** `new KekekeClient(anonymousId, topic, nickname = 'KekekeClient')`. */
    constructor (anonymousId: string, topic: string, nickname: Option<string>, json: JsonCodec, entities: string -> string)
      ensures this.anonymousId == anonymousId && this.topic == topic
      ensures this.nickname == (if nickname.Some? then nickname.value else "KekekeClient")
      ensures this.json == json && this.entities == entities
      ensures publicId == None && colorToken == None && kerma == None
      ensures !connected && outbox == []
    {
      this.anonymousId := anonymousId;
      this.topic := topic;
      this.nickname := if nickname.Some? then nickname.value else "KekekeClient";
      this.json := json;
      this.entities := entities;
      publicId, colorToken, kerma := None, None, None;
      connected := false;
      outbox := [];
    }

    /** The end of a successful `login`: the session fields are filled in and
        the socket is created. */
    method LoggedIn(publicId: string, colorToken: string, kerma: Json)
      modifies this
      ensures this.publicId == Some(publicId) && this.colorToken == Some(colorToken)
      ensures this.kerma == Some(kerma) && connected && outbox == old(outbox)
    {
      this.publicId := Some(publicId);
      this.colorToken := Some(colorToken);
      this.kerma := Some(kerma);
      connected := true;
    }

    /** `_sendMessage`: the text of the frame goes to the socket, or, with no
        socket, `NotLoggedInError` is thrown and nothing is sent. */
    method SendMessage(m: Message) returns (r: Result<(), ClientError>)
      modifies this`outbox
      ensures r.Failure? <==> !connected
      ensures outbox == old(outbox) + (if connected then [Encode(m, json)] else [])
    {
      if connected {
        var text := ToString(m, json);
        outbox := outbox + [text];
        r := Success(());
      } else {
        r := Failure(NotLoggedIn);
      }
    }

    /** The frame `sendText(text, replyPublicIds)` builds at clock `now`. */
    function TextFrameFor(text: string, replyPublicIds: Json, now: nat): Message
      reads this
    {
      TextFrame(topic, colorToken, publicId, nickname, entities(text), NatToString(now), replyPublicIds)
    }

    function DeleteMediaFrameFor(url: string, now: nat): Message
      reads this
    {
      DeleteMediaFrame(topic, colorToken, publicId, nickname, entities("delete " + url), NatToString(now))
    }

    /** `sendText`. */
    method SendText(text: string, replyPublicIds: Json, now: nat) returns (r: Result<(), ClientError>)
      modifies this`outbox
      ensures r.Failure? <==> !connected
      ensures outbox == old(outbox) + (if connected then [Encode(TextFrameFor(text, replyPublicIds, now), json)] else [])
    {
      var message := TextFrameFor(text, replyPublicIds, now);
      r := SendMessage(message);
    }

    /** `deleteMedia`. */
    method DeleteMedia(url: string, now: nat) returns (r: Result<(), ClientError>)
      modifies this`outbox
      ensures r.Failure? <==> !connected
      ensures outbox == old(outbox) + (if connected then [Encode(DeleteMediaFrameFor(url, now), json)] else [])
    {
      var message := DeleteMediaFrameFor(url, now);
      r := SendMessage(message);
    }

    /** The socket's `message` handler. It only runs while the socket exists. */
    method OnFrame(data: string) returns (reaction: Reaction)
      requires connected
      modifies this`outbox
      ensures reaction == React(Decode(data, json))
      ensures outbox == old(outbox) + Texts(Replies(reaction, topic), json)
    {
      var recv := From(data, json);
      if recv.Failure? {
        return Dropped(recv.error);
      }
      var m := recv.value;
      if m.frameType == Connected {
        var sendMsg := SubscribeFrame(topic);
        var _ := SendMessage(sendMsg);
        reaction := Subscribed(m);
      } else if m.frameType == Ping {
        var sendMsg := PongFrame();
        var _ := SendMessage(sendMsg);
        reaction := Ponged(m);
      } else if m.frameType == MessageFrame {
        reaction := Forwarded(m);
      } else {
        reaction := Ignored(m);
      }
    }
  }

  // ---------------------------------------------------------------- laws

  /** Only CONNECTED and PING frames are answered, with exactly one frame
      each; undecodable text and every other type send nothing. */
  lemma RepliesOnlyToConnectedAndPing(decoded: Result<Message, DecodeError>, topic: string)
    ensures |Replies(React(decoded), topic)| <= 1
    ensures Replies(React(decoded), topic) != []
        <==> decoded.Success? && (decoded.value.frameType == Connected || decoded.value.frameType == Ping)
    ensures React(decoded).Forwarded? <==> decoded.Success? && decoded.value.frameType == MessageFrame
  {
  }

  /** The PONG answer is a bare type line with the default `{}` payload. */
  lemma PongText(codec: JsonCodec)
    ensures Encode(PongFrame(), codec) == "PONG\n\n" + codec.stringify(EmptyObject)
  {
  }

  /** The SUBSCRIBE answer names the client's topic: the frame type, one
      `destination:/topic/<topic>` line, the blank line, and the JSON of an
      empty object. */
  lemma SubscribeText(topic: string, codec: JsonCodec)
    ensures Encode(SubscribeFrame(topic), codec)
         == "SUBSCRIBE" + "\n" + "destination" + ":" + TopicDestination(topic) + "\n" + "\n" + codec.stringify(EmptyObject)
  {
    var a := Attr("destination", Some(TopicDestination(topic)));
    assert SubscribeFrame(topic) == Message("SUBSCRIBE", [a], EmptyObject);
    assert AttrLines([a]) == "destination" + ":" + TopicDestination(topic) + "\n" + "";
    OneLineFrame("SUBSCRIBE", "destination", TopicDestination(topic), codec.stringify(EmptyObject));
  }

  /** Regrouping the text of a frame with a single attribute line. */
  lemma OneLineFrame(frameType: string, key: string, value: string, json: string)
    ensures frameType + "\n" + (key + ":" + value + "\n" + "") + "\n" + json
         == frameType + "\n" + key + ":" + value + "\n" + "\n" + json
  {
  }

  /** A text frame, read through the accessors, gives back what `sendText`
      put in: the content and the sender. */
  lemma TextFrameSender(topic: string, colorToken: Option<string>, publicId: Option<string>, nickname: string,
                        content: string, date: string, ids: Json)
    ensures var m := TextFrame(topic, colorToken, publicId, nickname, content, date, ids);
      && GetContent(m) == Success(Some(JStr(content)))
      && GetSender(m) == Success(Sender(if publicId.Some? then Some(JStr(publicId.value)) else None,
                                        Some(JStr(nickname))))
  {
    var m := TextFrame(topic, colorToken, publicId, nickname, content, date, ids);
    var fields := TextPayload(colorToken, publicId, nickname, content, date, ids);
    assert m.payload == JObj(fields);
    TextPayloadLookups(colorToken, publicId, nickname, content, date, ids, fields);
    assert Get(m.payload, "senderPublicId") == Success(Lookup(fields, "senderPublicId"));
    assert Get(m.payload, "senderNickName") == Success(Lookup(fields, "senderNickName"));
  }

  /** A text frame carries the CHAT_MESSAGE event type and no publisher
      attribute ... */
  lemma TextFrameEventType(topic: string, colorToken: Option<string>, publicId: Option<string>, nickname: string,
                           content: string, date: string, ids: Json)
    ensures var m := TextFrame(topic, colorToken, publicId, nickname, content, date, ids);
      && GetEventType(m) == Success(Some(JStr(ChatMessage)))
      && GetPublisher(m) == None
  {
    var m := TextFrame(topic, colorToken, publicId, nickname, content, date, ids);
    var fields := TextPayload(colorToken, publicId, nickname, content, date, ids);
    assert m.payload == JObj(fields);
    assert m.attributes == [Attr("destination", Some(TopicDestination(topic)))];
    TextPayloadLookups(colorToken, publicId, nickname, content, date, ids, fields);
  }

  /** ... and reads back the reply ids given (an empty list when the ids
      given are falsy). */
  lemma TextFrameReplyIds(topic: string, colorToken: Option<string>, publicId: Option<string>, nickname: string,
                          content: string, date: string, ids: Json)
    ensures GetReplyPublicIds(TextFrame(topic, colorToken, publicId, nickname, content, date, ids))
         == Success(if Truthy(ids) then ids else JArr([]))
  {
    var m := TextFrame(topic, colorToken, publicId, nickname, content, date, ids);
    var fields := TextPayload(colorToken, publicId, nickname, content, date, ids);
    var inner := [Field("replyPublicIds", ids)];
    assert m.payload == JObj(fields);
    TextPayloadLookups(colorToken, publicId, nickname, content, date, ids, fields);
    assert Lookup(inner, "replyPublicIds") == Some(ids);
    ReplyPublicIdsPresent(m, inner, ids);
  }

  /** The properties of a text frame's payload. */
  lemma TextPayloadLookups(colorToken: Option<string>, publicId: Option<string>, nickname: string,
                           content: string, date: string, ids: Json, fields: seq<Field>)
    requires fields == TextPayload(colorToken, publicId, nickname, content, date, ids)
    ensures Lookup(fields, "content") == Some(JStr(content))
    ensures Lookup(fields, "eventType") == Some(JStr(ChatMessage))
    ensures Lookup(fields, "payload") == Some(JObj([Field("replyPublicIds", ids)]))
    ensures Lookup(fields, "senderNickName") == Some(JStr(nickname))
    ensures Lookup(fields, "senderPublicId") == (if publicId.Some? then Some(JStr(publicId.value)) else None)
  {
    var inner := JObj([Field("replyPublicIds", ids)]);
    var rest := [Field("content", JStr(content))] + ([Field("date", JStr(date))]
                + ([Field("eventType", JStr(ChatMessage))] + [Field("payload", inner)]));
    assert fields == SenderFields(colorToken, publicId, nickname) + rest;
    ReadAfterSender(colorToken, publicId, nickname, rest, "content");
    ReadAfterSender(colorToken, publicId, nickname, rest, "eventType");
    ReadAfterSender(colorToken, publicId, nickname, rest, "payload");
    assert Lookup(rest, "content") == Some(JStr(content));
    assert Lookup(rest, "eventType") == Some(JStr(ChatMessage)) by {
      LookupPast(Field("content", JStr(content)), rest[1..], "eventType");
      LookupPast(Field("date", JStr(date)), rest[2..], "eventType");
    }
    assert Lookup(rest, "payload") == Some(inner) by {
      LookupPast(Field("content", JStr(content)), rest[1..], "payload");
      LookupPast(Field("date", JStr(date)), rest[2..], "payload");
      LookupPast(Field("eventType", JStr(ChatMessage)), rest[3..], "payload");
    }
    assert Lookup(rest, "senderPublicId") == None by {
      LookupPast(Field("content", JStr(content)), rest[1..], "senderPublicId");
      LookupPast(Field("date", JStr(date)), rest[2..], "senderPublicId");
      LookupPast(Field("eventType", JStr(ChatMessage)), rest[3..], "senderPublicId");
      LookupPast(Field("payload", inner), [], "senderPublicId");
    }
    SenderRead(colorToken, publicId, nickname, rest);
  }

  /** A delete-media frame carries `delete <url>` as content, the
      DELETE_MEDIA event type and no reply ids. */
  lemma DeleteMediaFrameAccessors(topic: string, colorToken: Option<string>, publicId: Option<string>,
                                  nickname: string, content: string, date: string)
    ensures var m := DeleteMediaFrame(topic, colorToken, publicId, nickname, content, date);
      && GetContent(m) == Success(Some(JStr(content)))
      && GetEventType(m) == Success(Some(JStr(DeleteMedia)))
      && GetReplyPublicIds(m) == Success(JArr([]))
  {
    var m := DeleteMediaFrame(topic, colorToken, publicId, nickname, content, date);
    var sender := SenderFields(colorToken, publicId, nickname);
    var rest := [Field("content", JStr(content))] + ([Field("date", JStr(date))]
                + [Field("eventType", JStr(DeleteMedia))]);
    assert m.payload == JObj(sender + rest);
    ReadAfterSender(colorToken, publicId, nickname, rest, "content");
    ReadAfterSender(colorToken, publicId, nickname, rest, "eventType");
    ReadAfterSender(colorToken, publicId, nickname, rest, "payload");
    assert Lookup(rest, "content") == Some(JStr(content));
    assert Lookup(rest, "eventType") == Some(JStr(DeleteMedia)) by {
      LookupPast(Field("content", JStr(content)), rest[1..], "eventType");
      LookupPast(Field("date", JStr(date)), rest[2..], "eventType");
    }
    assert Lookup(rest, "payload") == None by {
      LookupPast(Field("content", JStr(content)), rest[1..], "payload");
      LookupPast(Field("date", JStr(date)), rest[2..], "payload");
      LookupPast(Field("eventType", JStr(DeleteMedia)), rest[3..], "payload");
    }
  }

  lemma LookupPast(f: Field, rest: seq<Field>, key: string)
    requires f.key != key
    ensures Lookup([f] + rest, key) == Lookup(rest, key)
  {
    assert ([f] + rest)[1..] == rest;
  }

  /** A key the sender properties do not hold is read from what follows them. */
  lemma ReadAfterSender(colorToken: Option<string>, publicId: Option<string>, nickname: string,
                        rest: seq<Field>, key: string)
    requires key in {"content", "date", "eventType", "payload"}
    ensures Lookup(SenderFields(colorToken, publicId, nickname) + rest, key) == Lookup(rest, key)
  {
    var sender := SenderFields(colorToken, publicId, nickname);
    assert |key| <= 9;
    forall i | 0 <= i < |sender| ensures sender[i].key != key {
      assert |sender[i].key| >= 14;
    }
    LookupAppend(sender, rest, key);
  }

  /** The sender properties read back as they were given. */
  lemma SenderRead(colorToken: Option<string>, publicId: Option<string>, nickname: string, rest: seq<Field>)
    requires Lookup(rest, "senderPublicId") == None
    ensures var fields := SenderFields(colorToken, publicId, nickname) + rest;
      && Lookup(fields, "senderNickName") == Some(JStr(nickname))
      && Lookup(fields, "senderPublicId") == (if publicId.Some? then Some(JStr(publicId.value)) else None)
  {
    var color := OptField("senderColorToken", colorToken);
    var pid := OptField("senderPublicId", publicId);
    var nick := Field("senderNickName", JStr(nickname));
    var tail := [nick] + rest;
    assert SenderFields(colorToken, publicId, nickname) + rest == color + (pid + tail);
    LookupPast(nick, rest, "senderPublicId");
    assert Lookup(tail, "senderNickName") == Some(JStr(nickname));
    if publicId.Some? {
      LookupPast(pid[0], tail, "senderNickName");
    } else {
      assert pid + tail == tail;
    }
    if colorToken.Some? {
      LookupPast(color[0], pid + tail, "senderNickName");
      LookupPast(color[0], pid + tail, "senderPublicId");
    } else {
      assert color + (pid + tail) == pid + tail;
    }
  }
}
