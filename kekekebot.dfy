/** The older, synchronous dispatcher of src/KekekeBot.js and the `Response`
    class it carries: the same guard, addressing test and filtering as
    src/Bot.js, but a plain loop that calls the first matching listener's
    callback and breaks, and a response that hands its text straight to the
    client, with no middleware. */
module KekekeBot {
  import opened Wrappers
  import opened Json
  import opened Message
  import opened Client
  import opened Listeners
  import R = Response
  import PB = Bot

  /** One listener as src/KekekeBot.js evaluates it. A custom matcher always
      sees the raw content, whatever it is; only `respond` trims and strips
      the mention, and only `hear` and `respond` call a string method on the
      content, so only they throw when it is not a string. */
  function KekekeEval<M, B>(nick: string, l: Listener<M, B>, content: Option<Json>, isResponse: bool): (r: Result<Option<M>, JsError>)
    ensures r.Failure? <==> !l.Custom? && !(content.Some? && content.value.JStr?)
  {
    match l
    case Custom(matcher, _) => Success(matcher(content, isResponse))
    case Respond(pattern, _) =>
      var t :- AsString(content);
      Success(pattern(Stripped(t, nick)))
    case Hear(pattern, _) =>
      var t :- AsString(content);
      Success(pattern(t))
  }

  function KekekeStep<M, B>(nick: string): Step<M, B>
  {
    (l, content, isResponse) => KekekeEval(nick, l, content, isResponse)
  }

  /** `handleMessage` as a value. */
  function Handle<M, B>(ls: seq<Listener<M, B>>, m: Message, publicId: Option<string>, nick: string): Result<Outcome<M, B>, JsError>
  {
    Dispatch(ls, m, publicId, nick, KekekeStep(nick))
  }

  /** The `Response` class of src/KekekeBot.js. */
  class Response<M> {
    const client: KekekeClient
    const message: Message
    const matched: M
    /** `message.getContent()`. */
    const text: Option<Json>

    ghost predicate Valid()
    {
      !message.payload.JNull?
    }

    constructor (client: KekekeClient, message: Message, matched: M)
      requires !message.payload.JNull?
      ensures Valid()
      ensures this.client == client && this.message == message && this.matched == matched
      ensures text == GetContent(message).value
    {
      this.client := client;
      this.message := message;
      this.matched := matched;
      this.text := GetContent(message).value;
    }

    /** `send(text, replyPublicIds = [])`: the ids are normalised (an array,
        even a non-empty one, becomes `[]`; any other value `x` becomes
        `[x]`) and the text goes to `sendText` at once, whose
        `NotLoggedInError` reaches the caller. */
    method Send(text: string, arg: Option<Json>, now: nat) returns (r: Result<(), ClientError>)
      modifies client`outbox
      ensures r.Failure? <==> !client.connected
      ensures client.outbox == old(client.outbox)
           + (if client.connected then [Encode(client.TextFrameFor(text, R.NormalizeIds(arg), now), client.json)] else [])
    {
      var given := if arg.Some? then arg.value else JArr([]);
      var ids := JArr([]);
      if !given.JArr? {
        ids := JArr([given]);
      }
      assert ids == R.NormalizeIds(arg);
      r := client.SendText(text, ids, now);
    }

    /** `reply(text, shouldTagNickName = true)`: to the sender's public id,
        tagged `@nick ` unless the flag is given and falsy. */
    method Reply(text: string, shouldTagNickName: Option<Json>, now: nat) returns (r: Result<(), ClientError>)
      requires Valid()
      modifies client`outbox
      ensures r.Failure? <==> !client.connected
      ensures client.outbox == old(client.outbox)
           + (if client.connected
              then [Encode(client.TextFrameFor(R.ReplyText(GetSender(message).value, text, shouldTagNickName),
                                               R.NormalizeIds(GetSender(message).value.publicId), now), client.json)]
              else [])
    {
      var sender := GetSender(message).value;
      var t := text;
      if shouldTagNickName.None? || Truthy(shouldTagNickName.value) {
        t := R.TagText(sender.nickName, text);
      }
      r := Send(t, sender.publicId, now);
    }

    /** `random(texts, replyPublicIds = [])`: `_.sample` is an unspecified
        choice; `chosen` says which text went out. */
    method Random(texts: seq<string>, arg: Option<Json>, now: nat) returns (chosen: nat, r: Result<(), ClientError>)
      requires |texts| > 0
      modifies client`outbox
      ensures chosen < |texts|
      ensures r.Failure? <==> !client.connected
      ensures client.outbox == old(client.outbox)
           + (if client.connected then [Encode(client.TextFrameFor(texts[chosen], R.NormalizeIds(arg), now), client.json)] else [])
    {
      chosen :| 0 <= chosen < |texts|;
      r := Send(texts[chosen], arg, now);
    }

    /** `deleteMedia`: straight to the client. */
    method DeleteMedia(url: string, now: nat) returns (r: Result<(), ClientError>)
      modifies client`outbox
      ensures r.Failure? <==> !client.connected
      ensures client.outbox == old(client.outbox)
           + (if client.connected then [Encode(client.DeleteMediaFrameFor(url, now), client.json)] else [])
    {
      r := client.DeleteMedia(url, now);
    }
  }

  class KekekeBot<M, B> {
    var listeners: seq<Listener<M, B>>
    const client: KekekeClient

    constructor (client: KekekeClient)
      ensures this.client == client && listeners == []
    {
      this.client := client;
      listeners := [];
    }

    /** `new KekekeBot(anonymousId, topic, nickname = 'KekekeBot')`: throws
        `InvalidBotNickName` for a nickname that does not end in "bot"
        (ignoring case), and otherwise owns a new, logged-out client with that
        nickname and no listeners. */
    static method Create(anonymousId: string, topic: string, nickname: Option<string>,
                         json: JsonCodec, entities: string -> string) returns (r: Result<KekekeBot<M, B>, BotError>)
      ensures r.Failure? <==> !LooksLikeBot(BotNickName(nickname))
      ensures r.Success? ==> && fresh(r.value) && fresh(r.value.client) && r.value.listeners == []
                             && r.value.client.nickname == BotNickName(nickname)
                             && r.value.client.anonymousId == anonymousId && r.value.client.topic == topic
                             && !r.value.client.connected && r.value.client.outbox == []
    {
      var nick := BotNickName(nickname);
      if !LooksLikeBot(nick) {
        return Failure(InvalidBotNickName);
      }
      var client := new KekekeClient(anonymousId, topic, Some(nick), json, entities);
      var bot := new KekekeBot(client);
      r := Success(bot);
    }

    /** `hear(pattern, callback)`. */
    method Hear(pattern: Pattern<M>, callback: B)
      modifies this`listeners
      ensures listeners == old(listeners) + [Listener.Hear(pattern, callback)]
    {
      listeners := listeners + [Listener.Hear(pattern, callback)];
    }

    /** `respond(pattern, callback)`. */
    method Respond(pattern: Pattern<M>, callback: B)
      modifies this`listeners
      ensures listeners == old(listeners) + [Listener.Respond(pattern, callback)]
    {
      listeners := listeners + [Listener.Respond(pattern, callback)];
    }

    /** `listen(match, callback)`. */
    method Listen(matcher: Matcher<M>, callback: B)
      modifies this`listeners
      ensures listeners == old(listeners) + [Custom(matcher, callback)]
    {
      listeners := listeners + [Custom(matcher, callback)];
    }

    /** `handleMessage`: the guard, `isResponse`, the filtering, then the
        `for…of` loop that evaluates the candidates in order and breaks at the
        first match. `evaluated` lists the listeners evaluated, in order; when
        a listener fires, `response` is the `Response` its callback gets. */
    method HandleMessage(message: Message)
      returns (outcome: Result<Outcome<M, B>, JsError>, evaluated: seq<nat>, response: Response?<M>)
      ensures outcome == Handle(listeners, message, client.publicId, client.nickname)
      ensures evaluated == Evaluated(listeners, message, client.publicId, client.nickname, KekekeStep(client.nickname))
      ensures response != null <==> outcome.Success? && outcome.value.Fired?
      ensures response != null ==> && fresh(response) && response.Valid()
                                   && response.client == client && response.message == message
                                   && response.matched == outcome.value.matched
    {
      var nick, publicId := client.nickname, client.publicId;
      var pass := Guard(message, publicId);
      if pass.Failure? {
        return Failure(pass.error), [], null;
      }
      if !pass.value {
        return Success(Outcome.Ignored), [], null;
      }
      var content := GetContent(message).value;
      var addressed := IsResponse(message, content, publicId, nick);
      if addressed.Failure? {
        return Failure(addressed.error), [], null;
      }
      var isResponse := addressed.value;
      var cs, kept := Candidates(listeners, isResponse), Kept(listeners, isResponse);
      var res := ForOf(cs, nick, content, isResponse);
      assert res == Resolved(listeners, content, isResponse, KekekeStep(nick));
      DispatchScan(listeners, message, publicId, nick, KekekeStep(nick), isResponse);
      outcome := Success(OutcomeOf(listeners, kept, res));
      evaluated := kept[..ScanLength(res, |cs|)];
      response := null;
      if res.Found? {
        response := new Response(client, message, res.matched);
      }
    }
  }

  /** The `for…of` loop of `handleMessage` over the candidates: each is
      evaluated in turn, and the loop breaks at the first one that matches;
      an exception leaves the loop at once. */
  method ForOf<M, B>(cs: seq<Listener<M, B>>, nick: string, content: Option<Json>, isResponse: bool)
    returns (res: Resolution<M>)
    ensures res == ResolveFrom(cs, Eval(KekekeStep(nick), content, isResponse), 0)
  {
    ghost var eval := Eval(KekekeStep(nick), content, isResponse);
    var i := 0;
    while i < |cs|
      invariant 0 <= i <= |cs|
      invariant NoneBetween(cs, eval, 0, i)
    {
      var matched := KekekeEval(nick, cs[i], content, isResponse);
      assert eval(cs[i]) == matched;
      if matched.Failure? {
        ResolveFromFinds(cs, eval, 0, i);
        return Threw(i, matched.error);
      }
      if matched.value.Some? {
        ResolveFromFinds(cs, eval, 0, i);
        return Found(i, matched.value.value);
      }
      assert NoneBetween(cs, eval, 0, i + 1);
      i := i + 1;
    }
    ResolveFromChar(cs, eval, 0);
    res := NotFound;
  }

  // ---------------------------------------------------------------- laws

  /** A custom matcher gets the raw content and the flag, never the stripped
      text, and is called even when the content is not a string. */
  lemma CustomSeesRaw<M, B>(nick: string, matcher: Matcher<M>, cb: B, content: Option<Json>, isResponse: bool)
    ensures KekekeEval(nick, Custom(matcher, cb), content, isResponse) == Success(matcher(content, isResponse))
  {
  }

  /** The two dispatchers evaluate `hear` and `respond` listeners alike on
      string content; they part only on custom matchers of addressed
      messages, which src/Bot.js gives the stripped text. */
  lemma DispatchersAgreeOnPatterns<M, B>(nick: string, l: Listener<M, B>, t: string, isResponse: bool)
    requires !l.Custom?
    ensures KekekeEval(nick, l, Some(JStr(t)), isResponse) == PB.BotEval(nick, l, Some(JStr(t)), isResponse)
  {
  }

  /** When no listener is custom and the content is a string, both
      dispatchers reach the same outcome on every message. */
  lemma SameOutcomeWithoutCustom<M, B>(ls: seq<Listener<M, B>>, m: Message, publicId: Option<string>, nick: string)
    requires forall i :: 0 <= i < |ls| ==> !ls[i].Custom?
    requires !m.payload.JNull? ==> GetContent(m).value.Some? && GetContent(m).value.value.JStr?
    ensures Handle(ls, m, publicId, nick) == PB.Handle(ls, m, publicId, nick)
  {
    if !m.payload.JNull? {
      var content := GetContent(m).value;
      forall i, ir: bool | 0 <= i < |ls|
        ensures KekekeStep(nick)(ls[i], content, ir) == PB.BotStep(nick)(ls[i], content, ir)
      {
        DispatchersAgreeOnPatterns(nick, ls[i], content.value.s, ir);
      }
      SameDispatch(ls, m, publicId, nick, KekekeStep(nick), PB.BotStep(nick));
    } else {
      assert Guard(m, publicId).Failure? || Guard(m, publicId) == Success(false);
    }
  }

  /** Two ways of evaluating a listener that agree on every registered
      listener, for the message's content, dispatch alike. */
  lemma SameDispatch<M, B>(ls: seq<Listener<M, B>>, m: Message, publicId: Option<string>, nick: string,
                           s1: Step<M, B>, s2: Step<M, B>)
    requires !m.payload.JNull?
    requires forall i, ir: bool :: 0 <= i < |ls| ==> s1(ls[i], GetContent(m).value, ir) == s2(ls[i], GetContent(m).value, ir)
    ensures Dispatch(ls, m, publicId, nick, s1) == Dispatch(ls, m, publicId, nick, s2)
  {
    var content := GetContent(m).value;
    var ir := IsResponse(m, content, publicId, nick);
    if Guard(m, publicId) == Success(true) && ir.Success? {
      var cs, kept := Candidates(ls, ir.value), Kept(ls, ir.value);
      DispatchScan(ls, m, publicId, nick, s1, ir.value);
      DispatchScan(ls, m, publicId, nick, s2, ir.value);
      var e1, e2 := Eval(s1, content, ir.value), Eval(s2, content, ir.value);
      forall j | 0 <= j < |cs| ensures e1(cs[j]) == e2(cs[j]) {
        assert cs[j] == ls[kept[j]];
      }
      SameScan(cs, e1, e2, 0);
      var r := Resolved(ls, content, ir.value, s1);
      assert r == Resolved(ls, content, ir.value, s2);
    }
  }

  /** Two evaluations that agree on every candidate scan alike. */
  lemma {:induction false} SameScan<L, M>(cs: seq<L>, e1: L -> Result<Option<M>, JsError>,
                                          e2: L -> Result<Option<M>, JsError>, i: nat)
    requires i <= |cs|
    requires forall j :: 0 <= j < |cs| ==> e1(cs[j]) == e2(cs[j])
    ensures ResolveFrom(cs, e1, i) == ResolveFrom(cs, e2, i)
    decreases |cs| - i
  {
    if i < |cs| {
      SameScan(cs, e1, e2, i + 1);
    }
  }
}
