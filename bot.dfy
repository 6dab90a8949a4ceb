/** The promise-based dispatcher of src/Bot.js: a bot with a nickname ending
    in "bot", a list of listeners, and `handleMessage`, which runs the shared
    guard and addressing test and then evaluates the candidates one after
    another until one matches, answering through a src/Response.js
    response. */
module Bot {
  import opened Wrappers
  import opened Strings
  import opened Json
  import opened Message
  import opened Client
  import opened Listeners
  import R = Response

  /** One listener as src/Bot.js evaluates it. The content is trimmed and
      stripped of the mention before the listener's kind is even looked at,
      so a content that is not a string throws for every kind. A custom
      matcher sees the stripped text when the message is addressed to the
      bot and the raw content otherwise; `respond` matches the stripped text
      and `hear` the raw content. */
  function BotEval<M, B>(nick: string, l: Listener<M, B>, content: Option<Json>, isResponse: bool): (r: Result<Option<M>, JsError>)
    ensures r.Failure? <==> !(content.Some? && content.value.JStr?)
  {
    if !(content.Some? && content.value.JStr?) then Failure(TypeError)
    else
      var t := content.value.s;
      var trimmed := Stripped(t, nick);
      match l
      case Custom(matcher, _) => Success(matcher(if isResponse then Some(JStr(trimmed)) else content, isResponse))
      case Respond(pattern, _) => Success(pattern(trimmed))
      case Hear(pattern, _) => Success(pattern(t))
  }

  function BotStep<M, B>(nick: string): Step<M, B>
  {
    (l, content, isResponse) => BotEval(nick, l, content, isResponse)
  }

  // ---------------------------------------------------------------- the guard as written

  /** `Message.<table>.clientTransport`: reading a property of `undefined`
      throws. */
  function ClientTransportVia(table: string): (r: Result<Option<Json>, JsError>)
    ensures r.Failure? <==> StaticTable(table).None?
  {
    match StaticTable(table)
    case None => Failure(TypeError)
    case Some(t) => Get(t, "clientTransport")
  }

  /** `a === b` between the publisher attribute and a value read from a
      table. */
  predicate SamePublisher(a: Option<string>, b: Option<Json>)
  {
    if a.None? then b.None? else b == Some(JStr(a.value))
  }

  /** The guard of `handleMessage` with the publisher constant read from
      `Message.<table>`. src/Bot.js:57 reads `Message.publishers`, with a
      lower-case `p`; src/KekekeBot.js:89 reads `Message.Publishers`. */
  function GuardVia(table: string, m: Message, publicId: Option<string>): Result<bool, JsError>
  {
    var ct :- ClientTransportVia(table);
    if SamePublisher(GetPublisher(m), ct) then Guard(m, publicId) else Success(false)
  }

  /** As written, src/Bot.js's guard throws a TypeError on every message,
      whatever it holds: `Message.publishers` is `undefined`. */
  lemma GuardAsWrittenAlwaysThrows(m: Message, publicId: Option<string>)
    ensures GuardVia("publishers", m, publicId) == Failure(TypeError)
  {
  }

  /** With the table src/Message.js defines, the guard is the shared one,
      which the dispatcher below uses. */
  lemma GuardCorrected(m: Message, publicId: Option<string>)
    ensures GuardVia("Publishers", m, publicId) == Guard(m, publicId)
  {
    assert ClientTransportVia("Publishers") == Success(Some(JStr(ClientTransport)));
  }

  // ---------------------------------------------------------------- the bot

  /** `handleMessage` as a value: the outcome for listeners `ls`, the bot's
      public id and its nickname. */
  function Handle<M, B>(ls: seq<Listener<M, B>>, m: Message, publicId: Option<string>, nick: string): Result<Outcome<M, B>, JsError>
  {
    Dispatch(ls, m, publicId, nick, BotStep(nick))
  }

  class Bot<M, B> {
    var listeners: seq<Listener<M, B>>
    const client: KekekeClient

    constructor (client: KekekeClient)
      ensures this.client == client && listeners == []
    {
      this.client := client;
      listeners := [];
    }

    /** `new Bot(anonymousId, topic, nickname = 'KekekeBot')`: refuses a
        nickname that does not end in "bot", and otherwise owns a new,
        logged-out client with that nickname and no listeners. */
    static method Create(anonymousId: string, topic: string, nickname: Option<string>,
                         json: JsonCodec, entities: string -> string) returns (r: Result<Bot<M, B>, BotError>)
      ensures r.Failure? <==> !LooksLikeBot(BotNickName(nickname))
      ensures r.Success? ==> && fresh(r.value) && fresh(r.value.client) && r.value.listeners == []
                             && r.value.client.nickname == BotNickName(nickname)
                             && r.value.client.anonymousId == anonymousId && r.value.client.topic == topic
                             && !r.value.client.connected && r.value.client.outbox == []
    {
      var nick := BotNickName(nickname);
      if !LooksLikeBot(nick) {
        return Failure(InvalidBotNickName);
      }
      var client := new KekekeClient(anonymousId, topic, Some(nick), json, entities);
      var bot := new Bot(client);
      r := Success(bot);
    }

    /** `hear(pattern, callback)`. */
    method Hear(pattern: Pattern<M>, callback: B)
      modifies this`listeners
      ensures listeners == old(listeners) + [Listener.Hear(pattern, callback)]
    {
      listeners := listeners + [Listener.Hear(pattern, callback)];
    }

    /** `respond(pattern, callback)`. */
    method Respond(pattern: Pattern<M>, callback: B)
      modifies this`listeners
      ensures listeners == old(listeners) + [Listener.Respond(pattern, callback)]
    {
      listeners := listeners + [Listener.Respond(pattern, callback)];
    }

    /** `listen(match, callback)`. */
    method Listen(matcher: Matcher<M>, callback: B)
      modifies this`listeners
      ensures listeners == old(listeners) + [Custom(matcher, callback)]
    {
      listeners := listeners + [Custom(matcher, callback)];
    }

    /** `handleMessage`: `evaluated` lists the listeners whose matcher ran,
        in order; the `Promise.each` callback returns at once for every
        listener after the one found. When a listener fires, `response` is
        the `Response` its callback is given. */
    method HandleMessage(message: Message)
      returns (outcome: Result<Outcome<M, B>, JsError>, evaluated: seq<nat>, response: R.Response?<M>)
      ensures outcome == Handle(listeners, message, client.publicId, client.nickname)
      ensures evaluated == Evaluated(listeners, message, client.publicId, client.nickname, BotStep(client.nickname))
      ensures response != null <==> outcome.Success? && outcome.value.Fired?
      ensures response != null ==> && fresh(response) && response.Valid()
                                   && response.client == client && response.message == message
                                   && response.matched == outcome.value.matched && response.middlewares == null
    {
      var nick, publicId := client.nickname, client.publicId;
      var pass := Guard(message, publicId);
      if pass.Failure? {
        return Failure(pass.error), [], null;
      }
      if !pass.value {
        return Success(Outcome.Ignored), [], null;
      }
      var content := GetContent(message).value;
      var addressed := IsResponse(message, content, publicId, nick);
      if addressed.Failure? {
        return Failure(addressed.error), [], null;
      }
      var isResponse := addressed.value;
      var cs, kept := Candidates(listeners, isResponse), Kept(listeners, isResponse);
      DispatchScan(listeners, message, publicId, nick, BotStep(nick), isResponse);
      var res, count := Each(cs, nick, content, isResponse);
      assert res == Resolved(listeners, content, isResponse, BotStep(nick));
      outcome := Success(OutcomeOf(listeners, kept, res));
      evaluated := kept[..count];
      response := null;
      if res.Found? {
        response := new R.Response(client, message, res.matched);
      }
    }
  }

  /** The `Promise.each` loop of `handleMessage` over the candidates: each
      candidate is evaluated in turn until one matches, and every later one is
      skipped; a throw rejects the loop at once. `count` is the number of
      candidates evaluated. */
  method Each<M, B>(cs: seq<Listener<M, B>>, nick: string, content: Option<Json>, isResponse: bool)
    returns (r: Resolution<M>, count: nat)
    ensures r == ResolveFrom(cs, Eval(BotStep(nick), content, isResponse), 0)
    ensures count == ScanLength(r, |cs|)
  {
    ghost var eval := Eval(BotStep(nick), content, isResponse);
    var found: Option<(nat, M)> := None;
    count := 0;
    var i := 0;
    while i < |cs|
      invariant 0 <= i <= |cs|
      invariant found.None? ==> NoneBetween(cs, eval, 0, i) && count == i
      invariant found.Some? ==> && ResolveFrom(cs, eval, 0) == Found(found.value.0, found.value.1)
                                && count == found.value.0 + 1
    {
      if found.None? {
        count := count + 1;
        var matched := BotEval(nick, cs[i], content, isResponse);
        assert eval(cs[i]) == matched;
        if matched.Failure? {
          ResolveFromFinds(cs, eval, 0, i);
          return Threw(i, matched.error), count;
        }
        if matched.value.Some? {
          ResolveFromFinds(cs, eval, 0, i);
          found := Some((i, matched.value.value));
        }
      }
      i := i + 1;
    }
    if found.None? {
      ResolveFromChar(cs, eval, 0);
      return NotFound, count;
    }
    r := Found(found.value.0, found.value.1);
  }

  // ---------------------------------------------------------------- laws

  /** A content that is not a string makes src/Bot.js's scan throw at the
      first candidate, whatever kind of listener it is. */
  lemma NonStringContentThrows<M, B>(nick: string, l: Listener<M, B>, content: Option<Json>, isResponse: bool)
    requires !(content.Some? && content.value.JStr?)
    ensures BotEval(nick, l, content, isResponse) == Failure(TypeError)
  {
  }

  /** A message addressed to the bot reaches a custom matcher trimmed and
      with the mention removed ... */
  lemma CustomSeesStripped<M, B>(nick: string, matcher: Matcher<M>, cb: B, t: string)
    ensures BotEval(nick, Custom(matcher, cb), Some(JStr(t)), true)
         == Success(matcher(Some(JStr(Stripped(t, nick))), true))
  {
  }

  /** A `respond` pattern is matched against the trimmed content with the
      mention removed, and a `hear` pattern against the content as it came. */
  lemma PatternsSeeTheirText<M, B>(nick: string, p: Pattern<M>, cb: B, t: string, isResponse: bool)
    ensures BotEval(nick, Listener<M, B>.Respond(p, cb), Some(JStr(t)), isResponse) == Success(p(Stripped(t, nick)))
    ensures BotEval(nick, Listener<M, B>.Hear(p, cb), Some(JStr(t)), isResponse) == Success(p(t))
  {
  }

  /** ... and any other message reaches it as it came. */
  lemma CustomSeesRawUnaddressed<M, B>(nick: string, matcher: Matcher<M>, cb: B, t: string)
    ensures BotEval(nick, Custom(matcher, cb), Some(JStr(t)), false)
         == Success(matcher(Some(JStr(t)), false))
  {
  }

  /** A tagged reply addresses its recipient: a bot named `nick` that reads
      `@nick text` sees the mention, and stripping it gives back `text`
      (when `text` is non-empty and carries no surrounding white space). */
  lemma TaggedReplyIsAddressed(nick: string, text: string)
    requires |text| > 0 && !IsSpace(text[0]) && !IsSpace(text[|text| - 1])
    ensures Mentions(Trim(R.TagText(Some(JStr(nick)), text)), nick)
    ensures Stripped(R.TagText(Some(JStr(nick)), text), nick) == text
  {
    var tagged := R.TagText(Some(JStr(nick)), text);
    var a := "@" + nick;
    assert tagged == a + (" " + text);
    assert tagged[|tagged| - 1] == text[|text| - 1];
    UntrimmedIsTrim(tagged);
    assert tagged[1..1 + |nick|] == nick by {
      assert tagged[..|a|] == a;
    }
    EqualsIgnoreCaseRefl(nick);
    assert Mentions(tagged, nick);
    assert tagged[1 + |nick|..] == " " + text;
    SpaceThenUntrimmed(text);
  }

  lemma EqualsIgnoreCaseRefl(s: string)
    ensures EqualsIgnoreCase(s, s)
  {
  }

  /** One leading blank before an untrimmed text is all that trimming removes. */
  lemma SpaceThenUntrimmed(text: string)
    requires |text| > 0 && !IsSpace(text[0]) && !IsSpace(text[|text| - 1])
    ensures Trim(" " + text) == text
  {
    var s := " " + text;
    assert s[1..] == text;
    assert TrimStart(text) == text;
    assert TrimStart(s) == text;
    assert TrimEnd(text) == text;
  }

  /** The chat message of the end-to-end example below: client "Foo"
      (public id "abc") broadcasts "@Bot hello". */
  function ExampleMessage(): Message
  {
    Message("MESSAGE", [Attr("publisher", Some(ClientTransport))],
            JObj([Field("senderPublicId", JStr("abc")), Field("senderNickName", JStr("Foo")),
                  Field("content", JStr("@Bot hello")), Field("eventType", JStr(ChatMessage)),
                  Field("payload", JObj([Field("replyPublicIds", JArr([]))]))]))
  }

  lemma ExampleSender()
    ensures GetPublisher(ExampleMessage()) == Some(ClientTransport)
    ensures GetSender(ExampleMessage()) == Success(Sender(Some(JStr("abc")), Some(JStr("Foo"))))
  {
    var fields := ExampleMessage().payload.fields;
    assert Lookup(fields[1..], "senderNickName") == Some(JStr("Foo"));
  }

  lemma ExampleContent()
    ensures GetContent(ExampleMessage()) == Success(Some(JStr("@Bot hello")))
  {
    var fields := ExampleMessage().payload.fields;
    assert Lookup(fields[2..], "content") == Some(JStr("@Bot hello"));
    assert Lookup(fields[1..], "content") == Some(JStr("@Bot hello"));
  }

  lemma ExampleReplyIds()
    ensures GetReplyPublicIds(ExampleMessage()) == Success(JArr([]))
  {
    var fields := ExampleMessage().payload.fields;
    assert Lookup(fields[4..], "payload") == Some(JObj([Field("replyPublicIds", JArr([]))]));
    assert Lookup(fields[3..], "payload") == Lookup(fields[4..], "payload");
    assert Lookup(fields[2..], "payload") == Lookup(fields[3..], "payload");
    assert Lookup(fields[1..], "payload") == Lookup(fields[2..], "payload");
    ReplyPublicIdsPresent(ExampleMessage(), [Field("replyPublicIds", JArr([]))], JArr([]));
  }

  /** "@Bot hello" mentions "Bot", and without the mention it reads "hello". */
  lemma ExampleMention()
    ensures Mentions(Trim("@Bot hello"), "Bot")
    ensures Stripped("@Bot hello", "Bot") == "hello"
  {
    assert R.TagText(Some(JStr("Bot")), "hello") == "@Bot hello";
    TaggedReplyIsAddressed("Bot", "hello");
  }

  lemma ExampleGuard(botId: string)
    requires botId != "abc"
    ensures Guard(ExampleMessage(), Some(botId)) == Success(true)
  {
    ExampleSender();
    assert !SameId(Some(JStr("abc")), Some(botId));
    assert !LooksLikeBot("Foo") by {
      assert Lower("Foo"[0]) != Lower("bot"[0]);
    }
  }

  lemma ExampleAddressed(botId: string)
    ensures IsResponse(ExampleMessage(), Some(JStr("@Bot hello")), Some(botId), "Bot") == Success(true)
  {
    ExampleReplyIds();
    ExampleMention();
  }

  /** The end-to-end example: a bot called "Bot" with one `respond` listener
      whose pattern matches "hello" receives `ExampleMessage()`; the listener
      fires, and a tagged `reply("hi")` from its callback addresses "@Foo hi"
      to ["abc"]. */
  lemma EndToEndExample<M, B>(p: Pattern<M>, cb: B, mm: M, botId: string)
    requires p("hello") == Some(mm) && botId != "abc"
    ensures Handle([Listener.Respond(p, cb)], ExampleMessage(), Some(botId), "Bot") == Success(Fired(0, cb, mm))
    ensures R.ReplyText(GetSender(ExampleMessage()).value, "hi", None) == "@Foo hi"
    ensures R.NormalizeIds(GetSender(ExampleMessage()).value.publicId) == JArr([JStr("abc")])
  {
    ExampleFires(p, cb, mm, botId);
    ExampleSender();
    ExampleReply();
  }

  lemma ExampleFires<M, B>(p: Pattern<M>, cb: B, mm: M, botId: string)
    requires p("hello") == Some(mm) && botId != "abc"
    ensures Handle([Listener.Respond(p, cb)], ExampleMessage(), Some(botId), "Bot") == Success(Fired(0, cb, mm))
  {
    var content := Some(JStr("@Bot hello"));
    ExampleGuard(botId);
    ExampleContent();
    ExampleAddressed(botId);
    ExampleMention();
    PatternsSeeTheirText("Bot", p, cb, "@Bot hello", true);
    FirstMatchFires([Listener.Respond(p, cb)], ExampleMessage(), Some(botId), "Bot", BotStep("Bot"), content, true, 0, mm);
  }

  lemma ExampleReply()
    ensures R.ReplyText(Sender(Some(JStr("abc")), Some(JStr("Foo"))), "hi", None) == "@Foo hi"
  {
    assert ToJsString(Some(JStr("Foo"))) == "Foo";
    assert "@" + "Foo" + " " + "hi" == "@Foo hi";
  }

  /** A non-empty string that neither begins nor ends with white space is its
      own trim. */
  lemma UntrimmedIsTrim(s: string)
    requires |s| > 0 && !IsSpace(s[0]) && !IsSpace(s[|s| - 1])
    ensures Trim(s) == s
  {
    assert TrimStart(s) == s;
    assert TrimEnd(s) == s;
  }
}
