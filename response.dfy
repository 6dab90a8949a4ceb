/** The response emitter of src/Response.js: what a listener's callback uses
    to answer. Reply ids are normalised, `reply` tags the sender, and when a
    middleware chain is attached the text only goes out once the chain has
    completed. */
module Response {
  import opened Wrappers
  import opened Json
  import opened Message
  import opened Client
  import MW = Middleware

  /** The reply ids `_send` hands to the client, from the `replyPublicIds`
      argument (`None` when it is not given, so that the default `[]`
      applies). An array argument, even a non-empty one, becomes the empty
      list, and any other value `x` becomes `[x]`. */
  function NormalizeIds(arg: Option<Json>): (ids: Json)
    ensures ids.JArr? && |ids.items| <= 1
    ensures ids.items == [] <==> arg.None? || arg.value.JArr?
    ensures ids.items != [] ==> ids.items[0] == arg.value
  {
    match arg
    case None => JArr([])
    case Some(JArr(_)) => JArr([])
    case Some(x) => JArr([x])
  }

  /** The text of a tagged reply: `@${nickName} ${text}`. */
  function TagText(nickName: Option<Json>, text: string): (r: string)
    ensures |r| > |text| && r[0] == '@'
    ensures r[|r| - |text| - 1..] == " " + text
  {
    "@" + ToJsString(nickName) + " " + text
  }

  /** The text `reply(text, shouldTagNickName = true)` sends to `sender`:
      tagged unless the flag is given and falsy. */
  function ReplyText(sender: Sender, text: string, shouldTagNickName: Option<Json>): (r: string)
    ensures |r| >= |text| && r[|r| - |text|..] == text
    ensures shouldTagNickName.Some? && !Truthy(shouldTagNickName.value) ==> r == text
    ensures (shouldTagNickName.None? || Truthy(shouldTagNickName.value))
            && sender.nickName.Some? && sender.nickName.value.JStr?
            ==> r == "@" + sender.nickName.value.s + " " + text
  {
    if shouldTagNickName.None? || Truthy(shouldTagNickName.value) then TagText(sender.nickName, text) else text
  }

  /** The context the chain sees: `{response, text, replyPublicIds, method}`
      (the `response` back-reference is not modelled). */
  datatype SendContext = SendContext(text: string, replyPublicIds: Json, sendMethod: string)

  type Chain = MW.Middleware?<SendContext>

  class Response<M> {
    const client: KekekeClient
    const message: Message
    const matched: M
    /** `message.getContent()`. */
    const text: Option<Json>
    var middlewares: Chain

    ghost predicate Valid()
    {
      !message.payload.JNull?
    }

    /** `new Response(client, message, match)`. `getContent()` throws on a
        message whose payload is `null`; the dispatchers only build a response
        after the guard has read that payload. */
    constructor (client: KekekeClient, message: Message, matched: M)
      requires !message.payload.JNull?
      ensures Valid()
      ensures this.client == client && this.message == message && this.matched == matched
      ensures text == GetContent(message).value && middlewares == null
    {
      this.client := client;
      this.message := message;
      this.matched := matched;
      this.text := GetContent(message).value;
      middlewares := null;
    }

    /** `setMiddlewares`: replaces the chain and nothing else. */
    method SetMiddlewares(ms: Chain)
      modifies this`middlewares
      ensures middlewares == ms
    {
      middlewares := ms;
    }

    /** Whether `_send` transmits: always without a chain, and with one only
        when every middleware called `next`. */
    function Passes(sendMethod: string, text: string, ids: Json): bool
      reads this, middlewares
    {
      middlewares == null
      || MW.Run(middlewares.middlewares, SendContext(text, ids, sendMethod)).Completed?
    }

    /** What `_send(method, text, arg)` adds to the client's outbox at clock
        `now`: the text frame of the ORIGINAL text, whatever the chain did to
        the context, when the chain lets it pass and the client is
        connected. */
    function Emitted(sendMethod: string, text: string, arg: Option<Json>, now: nat): seq<string>
      reads this, middlewares, client
    {
      var ids := NormalizeIds(arg);
      if Passes(sendMethod, text, ids) && client.connected
      then [Encode(client.TextFrameFor(text, ids, now), client.json)]
      else []
    }

    /** `_send`. Without a chain, `sendText`'s `NotLoggedInError` reaches the
        caller; with one, sending happens in the chain's continuation, where a
        throw only rejects a promise nobody handles. */
    method Send_(sendMethod: string, text: string, arg: Option<Json>, now: nat) returns (thrown: Option<ClientError>)
      modifies client`outbox
      ensures client.outbox == old(client.outbox) + Emitted(sendMethod, text, arg, now)
      ensures thrown == if middlewares == null && !client.connected then Some(NotLoggedIn) else None
    {
      var ids := NormalizeIds(arg);
      if middlewares != null {
        var result, _ := middlewares.Execute(SendContext(text, ids, sendMethod));
        if result.Completed? {
          var _ := client.SendText(text, ids, now);
        }
        thrown := None;
      } else {
        var r := client.SendText(text, ids, now);
        assert r.Failure? <==> !client.connected;
        thrown := if r.Failure? then Some(NotLoggedIn) else None;
      }
    }

    /** `send(text, replyPublicIds = [])`. */
    method Send(text: string, arg: Option<Json>, now: nat) returns (thrown: Option<ClientError>)
      modifies client`outbox
      ensures client.outbox == old(client.outbox) + Emitted("send", text, arg, now)
      ensures thrown == if middlewares == null && !client.connected then Some(NotLoggedIn) else None
    {
      thrown := Send_("send", text, arg, now);
    }

    /** `reply`: to the sender's public id, with method 'reply'. */
    method Reply(text: string, shouldTagNickName: Option<Json>, now: nat) returns (thrown: Option<ClientError>)
      requires Valid()
      modifies client`outbox
      ensures client.outbox == old(client.outbox)
           + Emitted("reply", ReplyText(GetSender(message).value, text, shouldTagNickName),
                     GetSender(message).value.publicId, now)
      ensures thrown == if middlewares == null && !client.connected then Some(NotLoggedIn) else None
    {
      var sender := GetSender(message).value;
      var t := text;
      if shouldTagNickName.None? || Truthy(shouldTagNickName.value) {
        t := TagText(sender.nickName, text);
      }
      thrown := Send_("reply", t, sender.publicId, now);
    }

    /** `random(texts, replyPublicIds = [])`: one of the texts, through `send`.
        `_.sample` is an unspecified choice; `chosen` says which. */
    method Random(texts: seq<string>, arg: Option<Json>, now: nat) returns (chosen: nat, thrown: Option<ClientError>)
      requires |texts| > 0
      modifies client`outbox
      ensures chosen < |texts|
      ensures client.outbox == old(client.outbox) + Emitted("send", texts[chosen], arg, now)
      ensures thrown == if middlewares == null && !client.connected then Some(NotLoggedIn) else None
    {
      chosen :| 0 <= chosen < |texts|;
      thrown := Send(texts[chosen], arg, now);
    }

    /** `deleteMedia`: straight to the client, past any chain. */
    method DeleteMedia(url: string, now: nat) returns (r: Result<(), ClientError>)
      modifies client`outbox
      ensures r.Failure? <==> !client.connected
      ensures client.outbox == old(client.outbox)
           + (if client.connected then [Encode(client.DeleteMediaFrameFor(url, now), client.json)] else [])
    {
      r := client.DeleteMedia(url, now);
    }
  }

  // ---------------------------------------------------------------- laws

  /** A tagged reply to a string nickname begins `@nick ` and ends with the
      text. */
  lemma TagTextParts(nick: string, text: string)
    ensures TagText(Some(JStr(nick)), text) == "@" + nick + " " + text
    ensures TagText(Some(JStr(nick)), text)[1..1 + |nick|] == nick
  {
  }

  /** A chain that stops anywhere suppresses the send. */
  lemma HaltSuppresses(ms: seq<MW.Handler<SendContext>>, sendMethod: string, text: string, ids: Json, k: nat)
    requires k < |ms|
    requires MW.After(ms, SendContext(text, ids, sendMethod), k).Some?
    requires ms[k](MW.After(ms, SendContext(text, ids, sendMethod), k).value).Done?
    ensures !MW.Run(ms, SendContext(text, ids, sendMethod)).Completed?
  {
    MW.HaltedIff(ms, SendContext(text, ids, sendMethod), k);
  }
}
