/** What the two dispatchers (src/Bot.js and src/KekekeBot.js) share: the
    listener registrations, the guard that drops messages the bot must not
    answer, the decision whether a message is addressed to the bot, the
    filtering of `respond` listeners, and the first-match scan. Each
    dispatcher supplies its own `Step`: the way it evaluates one listener. */
module Listeners {
  import opened Wrappers
  import opened Strings
  import opened Json
  import opened Message

  /** `text.match(pattern)` for a user pattern: the match, or `None` for
      `null`. The regular expression itself is not modelled. */
  type Pattern<M> = string -> Option<M>

  /** `(content, isResponse) => match`: a custom matcher; `None` is a falsy
      result. */
  type Matcher<M> = (Option<Json>, bool) -> Option<M>

  /** One registration: `hear(pattern, callback)`, `respond(pattern, callback)`
      or `listen(match, callback)`. */
  datatype Listener<M, B> =
    | Hear(pattern: Pattern<M>, callback: B)
    | Respond(pattern: Pattern<M>, callback: B)
    | Custom(matcher: Matcher<M>, callback: B)

  /** How a dispatcher evaluates one listener on the content, given whether
      the message is addressed to the bot; a JavaScript exception is a
      `Failure`. */
  type Step<!M, !B> = (Listener<M, B>, Option<Json>, bool) -> Result<Option<M>, JsError>

  /** `/bot$/i`: the nickname ends in "bot", ignoring case. */
  predicate LooksLikeBot(nick: string)
    ensures LooksLikeBot(nick)
        <==> |nick| >= 3 && Lower(nick[|nick| - 3]) == 'b' && Lower(nick[|nick| - 2]) == 'o'
             && Lower(nick[|nick| - 1]) == 't'
  {
    EndsWithIgnoreCase(nick, "bot")
  }

  /** The error both bot constructors throw for a nickname not ending in
      "bot". */
  datatype BotError = InvalidBotNickName

  /** `nickname = 'KekekeBot'`, the default of both bot constructors. */
  function BotNickName(nickname: Option<string>): string
  {
    if nickname.Some? then nickname.value else "KekekeBot"
  }

  /** `a === b` between a payload value and the bot's public id (both may be
      `undefined`). */
  predicate SameId(a: Option<Json>, b: Option<string>)
  {
    match a
    case None => b.None?
    case Some(JStr(s)) => b == Some(s)
    case Some(_) => false
  }

  // ---------------------------------------------------------------- guard

  /** The guard of `handleMessage`, evaluated left to right with
      short-circuit: the publisher must be CLIENT_TRANSPORT, the sender must
      not be the bot itself, and the sender's nickname must not end in "bot".
      Reading the sender of a `null` payload, and calling `match` on a
      nickname that is not a string, throw. */
  function Guard(m: Message, publicId: Option<string>): (r: Result<bool, JsError>)
    ensures r == Success(true) ==> !m.payload.JNull?
  {
    if GetPublisher(m) != Some(ClientTransport) then Success(false)
    else
      match GetSender(m)
      case Failure(e) => Failure(e)
      case Success(sender) =>
        if SameId(sender.publicId, publicId) then Success(false)
        else
          match AsString(sender.nickName)
          case Failure(e) => Failure(e)
          case Success(nick) => Success(!LooksLikeBot(nick))
  }

  // ---------------------------------------------------------------- addressing

  /** `ids.indexOf(publicId) !== -1` on what `getReplyPublicIds` returned: on
      an array, strict element equality; on a string, a substring search for
      `String(publicId)`; any other value has no `indexOf` and throws. */
  function ListsId(ids: Json, publicId: Option<string>): (r: Result<bool, JsError>)
    ensures r.Failure? <==> !ids.JArr? && !ids.JStr?
    ensures ids.JArr? ==> r == Success(publicId.Some? && JStr(publicId.value) in ids.items)
  {
    match ids
    case JArr(items) => Success(publicId.Some? && JStr(publicId.value) in items)
    case JStr(s) => Success(ContainsSubstring(s, if publicId.Some? then publicId.value else "undefined"))
    case _ => Failure(TypeError)
  }

  /** `/^@nick\s+/i` on trimmed text: `@`, the nickname (ASCII case
      ignored), then at least one white-space character. */
  predicate Mentions(t: string, nick: string)
  {
    && |t| > |nick| + 1
    && t[0] == '@'
    && EqualsIgnoreCase(t[1..1 + |nick|], nick)
    && IsSpace(t[1 + |nick|])
  }

  /** `content.trim().replace(nameRegex, '').trim()`. */
  function Stripped(content: string, nick: string): (r: string)
    ensures r == [] || (!IsSpace(r[0]) && !IsSpace(r[|r| - 1]))
  {
    var t := Trim(content);
    var rest := if Mentions(t, nick) then t[1 + |nick|..] else t;
    Trim(rest)
  }

  /** The `isResponse` test: the reply ids name the bot, or else the trimmed
      content mentions it. The content is only trimmed (and so only needs to
      be a string) when the ids do not name the bot. */
  function IsResponse(m: Message, content: Option<Json>, publicId: Option<string>, nick: string): (r: Result<bool, JsError>)
    requires !m.payload.JNull?
    ensures var ids := GetReplyPublicIds(m).value;
      r.Failure? ==> (!ids.JArr? && !ids.JStr?) || !(content.Some? && content.value.JStr?)
    ensures var ids := GetReplyPublicIds(m).value;
      r == Success(true) ==> ListsId(ids, publicId) == Success(true)
                             || (content.Some? && content.value.JStr? && Mentions(Trim(content.value.s), nick))
    ensures var ids := GetReplyPublicIds(m).value;
      ListsId(ids, publicId) == Success(true) ==> r == Success(true)
  {
    var listed :- ListsId(GetReplyPublicIds(m).value, publicId);
    if listed then Success(true)
    else
      var t :- AsString(content);
      Success(Mentions(Trim(t), nick))
  }

  // ---------------------------------------------------------------- candidates

  /** `_.filter(listeners, l => l.type !== respond)`. */
  function WithoutResponders<M, B>(ls: seq<Listener<M, B>>): seq<Listener<M, B>>
  {
    if |ls| == 0 then []
    else if ls[0].Respond? then WithoutResponders(ls[1..])
    else [ls[0]] + WithoutResponders(ls[1..])
  }

  /** The registration indices of the kept listeners, in order. */
  function KeptFrom<M, B>(ls: seq<Listener<M, B>>, base: nat): seq<nat>
  {
    if |ls| == 0 then []
    else if ls[0].Respond? then KeptFrom(ls[1..], base + 1)
    else [base] + KeptFrom(ls[1..], base + 1)
  }

  /** The listeners scanned: all of them when the message is addressed to the
      bot, otherwise all but the `respond` ones. */
  function Candidates<M, B>(ls: seq<Listener<M, B>>, isResponse: bool): seq<Listener<M, B>>
  {
    if isResponse then ls else WithoutResponders(ls)
  }

  /** `Kept(ls, isResponse)[j]` is the registration index of candidate `j`. */
  function Kept<M, B>(ls: seq<Listener<M, B>>, isResponse: bool): seq<nat>
  {
    if isResponse then seq(|ls|, i requires 0 <= i < |ls| => i) else KeptFrom(ls, 0)
  }

  /** Filtering keeps exactly the listeners that are not `respond`, in their
      original relative order: one kept index per kept listener, ... */
  lemma {:induction false} FilterLength<M, B>(ls: seq<Listener<M, B>>, base: nat)
    ensures |WithoutResponders(ls)| == |KeptFrom(ls, base)|
  {
    if |ls| > 0 {
      FilterLength(ls[1..], base + 1);
    }
  }

  /** ... each kept index in range and naming the listener kept there, which
      is never a `respond` listener, ... */
  lemma {:induction false} FilterElements<M, B>(ls: seq<Listener<M, B>>, base: nat)
    ensures forall j :: 0 <= j < |KeptFrom(ls, base)| ==>
      && base <= KeptFrom(ls, base)[j] < base + |ls|
      && j < |WithoutResponders(ls)|
      && WithoutResponders(ls)[j] == ls[KeptFrom(ls, base)[j] - base]
      && !WithoutResponders(ls)[j].Respond?
  {
    if |ls| > 0 {
      FilterLength(ls, base);
      FilterElements(ls[1..], base + 1);
      var tail, kt := WithoutResponders(ls[1..]), KeptFrom(ls[1..], base + 1);
      forall j | 0 <= j < |kt|
        ensures tail[j] == ls[kt[j] - base]
      {
        assert ls[1..][kt[j] - (base + 1)] == ls[kt[j] - base];
      }
    }
  }

  /** ... the kept indices strictly increasing, ... */
  lemma {:induction false} FilterIncreasing<M, B>(ls: seq<Listener<M, B>>, base: nat)
    ensures forall j :: 0 <= j < |KeptFrom(ls, base)| ==> base <= KeptFrom(ls, base)[j]
    ensures forall j, k :: 0 <= j < k < |KeptFrom(ls, base)| ==> KeptFrom(ls, base)[j] < KeptFrom(ls, base)[k]
  {
    if |ls| > 0 {
      FilterIncreasing(ls[1..], base + 1);
    }
  }

  /** ... and every listener that is not `respond` among them. */
  lemma {:induction false} FilterComplete<M, B>(ls: seq<Listener<M, B>>, base: nat)
    ensures forall i :: 0 <= i < |ls| && !ls[i].Respond? ==> base + i in KeptFrom(ls, base)
  {
    if |ls| > 0 {
      FilterComplete(ls[1..], base + 1);
      var kt := KeptFrom(ls[1..], base + 1);
      forall i | 0 < i < |ls| && !ls[i].Respond?
        ensures base + i in KeptFrom(ls, base)
      {
        assert ls[1..][i - 1] == ls[i];
        assert base + 1 + (i - 1) in kt;
      }
    }
  }

  /** The candidates are the listeners at the kept indices, ... */
  lemma KeptAt<M, B>(ls: seq<Listener<M, B>>, isResponse: bool)
    ensures |Candidates(ls, isResponse)| == |Kept(ls, isResponse)|
    ensures forall j :: 0 <= j < |Kept(ls, isResponse)| ==>
      Kept(ls, isResponse)[j] < |ls| && Candidates(ls, isResponse)[j] == ls[Kept(ls, isResponse)[j]]
  {
    if !isResponse {
      FilterLength(ls, 0);
      FilterElements(ls, 0);
    }
  }

  /** ... taken in registration order, ... */
  lemma KeptIncreasing<M, B>(ls: seq<Listener<M, B>>, isResponse: bool)
    ensures forall j, k :: 0 <= j < k < |Kept(ls, isResponse)| ==> Kept(ls, isResponse)[j] < Kept(ls, isResponse)[k]
    ensures forall j, k :: 0 <= j < |Kept(ls, isResponse)| && 0 <= k < |Kept(ls, isResponse)| && Kept(ls, isResponse)[j] < Kept(ls, isResponse)[k] ==> j < k
  {
    if !isResponse {
      FilterIncreasing(ls, 0);
    }
    var kept := Kept(ls, isResponse);
    forall j, k | 0 <= j < |kept| && 0 <= k < |kept| && kept[j] < kept[k]
      ensures j < k
    {
    }
  }

  /** ... leaving out no listener that is eligible, ... */
  lemma KeptComplete<M, B>(ls: seq<Listener<M, B>>, isResponse: bool)
    ensures forall i :: 0 <= i < |ls| && (isResponse || !ls[i].Respond?) ==> i in Kept(ls, isResponse)
  {
    if !isResponse {
      FilterComplete(ls, 0);
    } else {
      var kept := Kept(ls, isResponse);
      forall i | 0 <= i < |ls|
        ensures i in kept
      {
        assert kept[i] == i;
      }
    }
  }

  /** ... and, for a message not addressed to the bot, no `respond`
      listener. */
  lemma KeptNoResponders<M, B>(ls: seq<Listener<M, B>>, isResponse: bool)
    requires !isResponse
    ensures forall j :: 0 <= j < |Candidates(ls, isResponse)| ==> !Candidates(ls, isResponse)[j].Respond?
  {
    FilterLength(ls, 0);
    FilterElements(ls, 0);
  }

  /** Filtering, all in one: the candidates are exactly the eligible
      listeners, in registration order. */
  lemma CandidatesAtKept<M, B>(ls: seq<Listener<M, B>>, isResponse: bool)
    ensures |Candidates(ls, isResponse)| == |Kept(ls, isResponse)|
    ensures forall j :: 0 <= j < |Kept(ls, isResponse)| ==>
      Kept(ls, isResponse)[j] < |ls| && Candidates(ls, isResponse)[j] == ls[Kept(ls, isResponse)[j]]
    ensures forall j, k :: 0 <= j < k < |Kept(ls, isResponse)| ==> Kept(ls, isResponse)[j] < Kept(ls, isResponse)[k]
    ensures forall i :: 0 <= i < |ls| && (isResponse || !ls[i].Respond?) ==> i in Kept(ls, isResponse)
    ensures !isResponse ==> forall j :: 0 <= j < |Candidates(ls, isResponse)| ==> !Candidates(ls, isResponse)[j].Respond?
  {
    KeptAt(ls, isResponse);
    KeptIncreasing(ls, isResponse);
    KeptComplete(ls, isResponse);
    if !isResponse {
      KeptNoResponders(ls, isResponse);
    }
  }

  // ---------------------------------------------------------------- first match

  /** The scan's result: the first candidate with a match, or none, or the
      exception the first failing evaluation threw. */
  datatype Resolution<M> = Found(index: nat, matched: M) | NotFound | Threw(index: nat, error: JsError)

  /** The ordered scan from candidate `i` on. */
  function ResolveFrom<L, M>(cs: seq<L>, eval: L -> Result<Option<M>, JsError>, i: nat): (r: Resolution<M>)
    requires i <= |cs|
    ensures r.Found? ==> i <= r.index < |cs| && eval(cs[r.index]) == Success(Some(r.matched))
    ensures r.Threw? ==> i <= r.index < |cs| && eval(cs[r.index]) == Failure(r.error)
    decreases |cs| - i
  {
    if i == |cs| then NotFound
    else
      match eval(cs[i])
      case Failure(e) => Threw(i, e)
      case Success(Some(mm)) => Found(i, mm)
      case Success(None) => ResolveFrom(cs, eval, i + 1)
  }

  /** Candidates `i .. k-1` all came up empty. */
  predicate NoneBetween<L, M>(cs: seq<L>, eval: L -> Result<Option<M>, JsError>, i: nat, k: nat)
  {
    forall j :: i <= j < k && j < |cs| ==> eval(cs[j]) == Success(None)
  }

  /** First match wins: the scan stops at `k` exactly when every earlier
      candidate came up empty and candidate `k` matched or threw. */
  lemma {:induction false} ResolveFromChar<L, M>(cs: seq<L>, eval: L -> Result<Option<M>, JsError>, i: nat)
    requires i <= |cs|
    ensures ResolveFrom(cs, eval, i).NotFound? <==> NoneBetween(cs, eval, i, |cs|)
    ensures ResolveFrom(cs, eval, i).Found? || ResolveFrom(cs, eval, i).Threw?
        ==> NoneBetween(cs, eval, i, ResolveFrom(cs, eval, i).index)
    decreases |cs| - i
  {
    if i < |cs| && eval(cs[i]) == Success(None) {
      ResolveFromChar(cs, eval, i + 1);
    }
  }

  /** Conversely, a match at `k` after empty candidates is what the scan
      finds. */
  lemma {:induction false} ResolveFromFinds<L, M>(cs: seq<L>, eval: L -> Result<Option<M>, JsError>, i: nat, k: nat)
    requires i <= k < |cs| && NoneBetween(cs, eval, i, k)
    requires eval(cs[k]).Failure? || eval(cs[k]).value.Some?
    ensures ResolveFrom(cs, eval, i)
         == match eval(cs[k])
            case Failure(e) => Threw(k, e)
            case Success(mm) => Found(k, mm.value)
    decreases k - i
  {
    if i < k {
      ResolveFromFinds(cs, eval, i + 1, k);
    }
  }

  // ---------------------------------------------------------------- dispatch

  /** What one message does: dropped by the guard, no listener matched,
      listener `listener` (a registration index) fired with `matched`, or the
      evaluation of listener `listener` threw. */
  datatype Outcome<M, B> =
    | Ignored
    | Unmatched
    | Fired(listener: nat, callback: B, matched: M)
    | Failed(listener: nat, error: JsError)

  /** `step` with the content and the addressing fixed. */
  function Eval<M, B>(step: Step<M, B>, content: Option<Json>, isResponse: bool): Listener<M, B> -> Result<Option<M>, JsError>
  {
    l => step(l, content, isResponse)
  }

  function Resolved<M, B>(ls: seq<Listener<M, B>>, content: Option<Json>, isResponse: bool, step: Step<M, B>): Resolution<M>
  {
    ResolveFrom(Candidates(ls, isResponse), Eval(step, content, isResponse), 0)
  }

  /** The outcome of a scan, with the candidate it stopped at mapped back to
      its registration index through `kept`. */
  function OutcomeOf<M, B>(ls: seq<Listener<M, B>>, kept: seq<nat>, r: Resolution<M>): (o: Outcome<M, B>)
    requires forall j :: 0 <= j < |kept| ==> kept[j] < |ls|
    requires r.Found? || r.Threw? ==> r.index < |kept|
    ensures o.Unmatched? <==> r.NotFound?
    ensures o.Fired? <==> r.Found?
    ensures o.Fired? ==> o.listener == kept[r.index] && o.callback == ls[o.listener].callback && o.matched == r.matched
    ensures o.Failed? ==> r.Threw? && o.listener == kept[r.index] && o.error == r.error
  {
    match r
    case NotFound => Unmatched
    case Found(i, mm) => Fired(kept[i], ls[kept[i]].callback, mm)
    case Threw(i, e) => Failed(kept[i], e)
  }

  /** `handleMessage` for a given evaluation `step`: the guard, then
      `isResponse` (both may throw), then the scan over the candidates. */
  function Dispatch<M, B>(ls: seq<Listener<M, B>>, m: Message, publicId: Option<string>, nick: string,
                          step: Step<M, B>): (r: Result<Outcome<M, B>, JsError>)
    ensures r.Success? && (r.value.Fired? || r.value.Failed?) ==> r.value.listener < |ls|
  {
    var pass :- Guard(m, publicId);
    if !pass then Success(Ignored)
    else
      var content := GetContent(m).value;
      var isResponse :- IsResponse(m, content, publicId, nick);
      KeptAt(ls, isResponse);
      Success(OutcomeOf(ls, Kept(ls, isResponse), Resolved(ls, content, isResponse, step)))
  }

  /** How many candidates a scan evaluates: up to and including the one it
      stops at, or all. */
  function ScanLength<M>(r: Resolution<M>, n: nat): nat
  {
    if r.NotFound? then n else r.index + 1
  }

  /** The registration indices whose listener `handleMessage` evaluates, in
      evaluation order. */
  function Evaluated<M, B>(ls: seq<Listener<M, B>>, m: Message, publicId: Option<string>, nick: string,
                           step: Step<M, B>): seq<nat>
  {
    match Guard(m, publicId)
    case Success(true) =>
      var content := GetContent(m).value;
      (match IsResponse(m, content, publicId, nick)
       case Success(isResponse) =>
         KeptAt(ls, isResponse);
         Kept(ls, isResponse)[..ScanLength(Resolved(ls, content, isResponse, step), |Kept(ls, isResponse)|)]
       case Failure(_) => [])
    case _ => []
  }

  /** Past the guard and `isResponse`, a dispatch is the scan of the
      candidates: its outcome is where the scan stopped, and the listeners
      evaluated are the candidates up to that point. */
  lemma DispatchScan<M, B>(ls: seq<Listener<M, B>>, m: Message, publicId: Option<string>, nick: string,
                           step: Step<M, B>, isResponse: bool)
    requires Guard(m, publicId) == Success(true)
    requires IsResponse(m, GetContent(m).value, publicId, nick) == Success(isResponse)
    ensures |Candidates(ls, isResponse)| == |Kept(ls, isResponse)|
    ensures forall j :: 0 <= j < |Kept(ls, isResponse)| ==>
      Kept(ls, isResponse)[j] < |ls| && Candidates(ls, isResponse)[j] == ls[Kept(ls, isResponse)[j]]
    ensures Dispatch(ls, m, publicId, nick, step)
         == Success(OutcomeOf(ls, Kept(ls, isResponse), Resolved(ls, GetContent(m).value, isResponse, step)))
    ensures Evaluated(ls, m, publicId, nick, step)
         == Kept(ls, isResponse)[..ScanLength(Resolved(ls, GetContent(m).value, isResponse, step), |Kept(ls, isResponse)|)]
  {
    KeptAt(ls, isResponse);
  }

  // ---------------------------------------------------------------- laws

  /** The guard drops every message whose publisher is not CLIENT_TRANSPORT,
      before anything else is read. */
  lemma NotFromClientIgnored<M, B>(ls: seq<Listener<M, B>>, m: Message, publicId: Option<string>, nick: string,
                                   step: Step<M, B>)
    requires GetPublisher(m) != Some(ClientTransport)
    ensures Dispatch(ls, m, publicId, nick, step) == Success(Ignored)
    ensures Evaluated(ls, m, publicId, nick, step) == []
  {
  }

  /** A message the bot sent itself is dropped. */
  lemma OwnMessageIgnored<M, B>(ls: seq<Listener<M, B>>, m: Message, publicId: Option<string>, nick: string,
                                step: Step<M, B>)
    requires GetPublisher(m) == Some(ClientTransport) && !m.payload.JNull?
    requires SameId(GetSender(m).value.publicId, publicId)
    ensures Dispatch(ls, m, publicId, nick, step) == Success(Ignored)
    ensures Evaluated(ls, m, publicId, nick, step) == []
  {
  }

  /** A sender whose nickname ends in "bot" is dropped, so that bots do not
      answer each other. */
  lemma BotSenderIgnored<M, B>(ls: seq<Listener<M, B>>, m: Message, publicId: Option<string>, nick: string,
                               step: Step<M, B>, senderNick: string)
    requires GetPublisher(m) == Some(ClientTransport) && !m.payload.JNull?
    requires !SameId(GetSender(m).value.publicId, publicId)
    requires GetSender(m).value.nickName == Some(JStr(senderNick)) && LooksLikeBot(senderNick)
    ensures Dispatch(ls, m, publicId, nick, step) == Success(Ignored)
    ensures Evaluated(ls, m, publicId, nick, step) == []
  {
  }

  /** The guard lets a message through exactly when it is from a client, not
      from the bot, and from a sender whose nickname is a string not ending
      in "bot". */
  lemma GuardPasses(m: Message, publicId: Option<string>)
    ensures Guard(m, publicId) == Success(true)
        <==> && GetPublisher(m) == Some(ClientTransport)
             && !m.payload.JNull?
             && !SameId(GetSender(m).value.publicId, publicId)
             && GetSender(m).value.nickName.Some? && GetSender(m).value.nickName.value.JStr?
             && !LooksLikeBot(GetSender(m).value.nickName.value.s)
  {
  }

  /** A message is addressed to the bot exactly when its reply ids list the
      bot or its trimmed content starts with the mention. */
  lemma IsResponseIff(m: Message, content: Option<Json>, publicId: Option<string>, nick: string)
    requires !m.payload.JNull? && GetReplyPublicIds(m).value.JArr?
    requires content.Some? && content.value.JStr?
    ensures IsResponse(m, content, publicId, nick)
         == Success((publicId.Some? && JStr(publicId.value) in GetReplyPublicIds(m).value.items)
                    || Mentions(Trim(content.value.s), nick))
  {
  }

  /** Stripping a content that does not mention the bot only trims it. */
  lemma StrippedWithoutMention(content: string, nick: string)
    requires !Mentions(Trim(content), nick)
    ensures Stripped(content, nick) == Trim(content)
  {
    TrimIdempotent(content);
  }

  /** A dispatch that passes the guard and gets past `isResponse` fires the
      first candidate that matches, with its own callback, and only after
      every earlier candidate came up empty: first match wins. */
  lemma FiredIsFirstMatch<M, B>(ls: seq<Listener<M, B>>, m: Message, publicId: Option<string>, nick: string,
                                step: Step<M, B>, content: Option<Json>, isResponse: bool, k: nat, cb: B, mm: M)
    requires Guard(m, publicId) == Success(true)
    requires content == GetContent(m).value
    requires IsResponse(m, content, publicId, nick) == Success(isResponse)
    requires Dispatch(ls, m, publicId, nick, step) == Success(Fired(k, cb, mm))
    ensures k < |ls| && cb == ls[k].callback
    ensures isResponse || !ls[k].Respond?
    ensures step(ls[k], content, isResponse) == Success(Some(mm))
    ensures forall j :: 0 <= j < k && (isResponse || !ls[j].Respond?) ==> step(ls[j], content, isResponse) == Success(None)
  {
    var cs, kept := Candidates(ls, isResponse), Kept(ls, isResponse);
    var eval := Eval(step, content, isResponse);
    DispatchScan(ls, m, publicId, nick, step, isResponse);
    KeptIncreasing(ls, isResponse);
    KeptComplete(ls, isResponse);
    if !isResponse {
      KeptNoResponders(ls, isResponse);
    }
    ResolveFromChar(cs, eval, 0);
    var r := Resolved(ls, content, isResponse, step);
    assert OutcomeOf(ls, kept, r) == Fired(k, cb, mm);
    assert r.Found? && kept[r.index] == k;
    var i := r.index;
    assert cs[i] == ls[k];
    forall j | 0 <= j < k && (isResponse || !ls[j].Respond?)
      ensures step(ls[j], content, isResponse) == Success(None)
    {
      var p := IndexOf(kept, j);
      assert kept[p] < kept[i];
      assert p < i;
      assert eval(cs[p]) == Success(None);
    }
  }

  /** Conversely: when listener `k` is a candidate that matches and every
      earlier candidate comes up empty, listener `k` fires. In particular a
      `hear` listener registered before a matching `respond` listener wins,
      even when the message is addressed to the bot. */
  lemma FirstMatchFires<M, B>(ls: seq<Listener<M, B>>, m: Message, publicId: Option<string>, nick: string,
                              step: Step<M, B>, content: Option<Json>, isResponse: bool, k: nat, mm: M)
    requires Guard(m, publicId) == Success(true)
    requires content == GetContent(m).value
    requires IsResponse(m, content, publicId, nick) == Success(isResponse)
    requires k < |ls| && (isResponse || !ls[k].Respond?)
    requires step(ls[k], content, isResponse) == Success(Some(mm))
    requires forall j :: 0 <= j < k && (isResponse || !ls[j].Respond?) ==> step(ls[j], content, isResponse) == Success(None)
    ensures Dispatch(ls, m, publicId, nick, step) == Success(Fired(k, ls[k].callback, mm))
  {
    var cs, kept := Candidates(ls, isResponse), Kept(ls, isResponse);
    var eval := Eval(step, content, isResponse);
    DispatchScan(ls, m, publicId, nick, step, isResponse);
    KeptIncreasing(ls, isResponse);
    KeptComplete(ls, isResponse);
    if !isResponse {
      KeptNoResponders(ls, isResponse);
    }
    var p := IndexOf(kept, k);
    forall j | 0 <= j < p
      ensures eval(cs[j]) == Success(None)
    {
      assert kept[j] < kept[p];
    }
    ResolveFromFinds(cs, eval, 0, p);
  }

  /** Nothing fires and nothing throws exactly when every candidate comes up
      empty. */
  lemma UnmatchedIff<M, B>(ls: seq<Listener<M, B>>, m: Message, publicId: Option<string>, nick: string,
                           step: Step<M, B>, content: Option<Json>, isResponse: bool)
    requires Guard(m, publicId) == Success(true)
    requires content == GetContent(m).value
    requires IsResponse(m, content, publicId, nick) == Success(isResponse)
    ensures Dispatch(ls, m, publicId, nick, step) == Success(Unmatched)
        <==> forall j :: 0 <= j < |ls| && (isResponse || !ls[j].Respond?) ==> step(ls[j], content, isResponse) == Success(None)
  {
    DispatchScan(ls, m, publicId, nick, step, isResponse);
    ResolveFromChar(Candidates(ls, isResponse), Eval(step, content, isResponse), 0);
    AllCandidatesEmpty(ls, step, content, isResponse);
  }

  /** Every candidate comes up empty exactly when every eligible listener
      does. */
  lemma AllCandidatesEmpty<M, B>(ls: seq<Listener<M, B>>, step: Step<M, B>, content: Option<Json>, isResponse: bool)
    ensures NoneBetween(Candidates(ls, isResponse), Eval(step, content, isResponse), 0, |Candidates(ls, isResponse)|)
        <==> forall j :: 0 <= j < |ls| && (isResponse || !ls[j].Respond?) ==> step(ls[j], content, isResponse) == Success(None)
  {
    var cs, kept := Candidates(ls, isResponse), Kept(ls, isResponse);
    var eval := Eval(step, content, isResponse);
    KeptAt(ls, isResponse);
    KeptComplete(ls, isResponse);
    if !isResponse {
      KeptNoResponders(ls, isResponse);
    }
    if forall j :: 0 <= j < |ls| && (isResponse || !ls[j].Respond?) ==> step(ls[j], content, isResponse) == Success(None) {
      forall p | 0 <= p < |cs| ensures eval(cs[p]) == Success(None) {
        assert cs[p] == ls[kept[p]];
      }
    } else {
      var j :| 0 <= j < |ls| && (isResponse || !ls[j].Respond?) && step(ls[j], content, isResponse) != Success(None);
      var p := IndexOf(kept, j);
      assert eval(cs[p]) != Success(None);
    }
  }

  /** The listeners evaluated are candidates, in registration order, each
      once. */
  lemma EvaluatedInOrder<M, B>(ls: seq<Listener<M, B>>, m: Message, publicId: Option<string>, nick: string,
                               step: Step<M, B>)
    ensures var ev := Evaluated(ls, m, publicId, nick, step);
      && (forall a, b :: 0 <= a < b < |ev| ==> ev[a] < ev[b])
      && (forall a :: 0 <= a < |ev| ==> ev[a] < |ls|)
  {
    if Guard(m, publicId) == Success(true) {
      var content := GetContent(m).value;
      var ir := IsResponse(m, content, publicId, nick);
      if ir.Success? {
        DispatchScan(ls, m, publicId, nick, step, ir.value);
        KeptIncreasing(ls, ir.value);
        var kept := Kept(ls, ir.value);
        var r := Resolved(ls, content, ir.value, step);
        assert ScanLength(r, |kept|) <= |kept|;
        PrefixInOrder(kept, ScanLength(r, |kept|), |ls|);
      }
    }
  }

  /** A prefix of an increasing sequence of indices below `size` is one too. */
  lemma PrefixInOrder(kept: seq<nat>, n: nat, size: nat)
    requires n <= |kept|
    requires forall j :: 0 <= j < |kept| ==> kept[j] < size
    requires forall j, k :: 0 <= j < k < |kept| ==> kept[j] < kept[k]
    ensures var ev := kept[..n];
      && (forall a, b :: 0 <= a < b < |ev| ==> ev[a] < ev[b])
      && (forall a :: 0 <= a < |ev| ==> ev[a] < size)
  {
  }

  /** A dispatch that got as far as the scan passed the guard and
      `isResponse`. */
  lemma Scanned<M, B>(ls: seq<Listener<M, B>>, m: Message, publicId: Option<string>, nick: string,
                      step: Step<M, B>)
    requires Dispatch(ls, m, publicId, nick, step).Success?
    requires !Dispatch(ls, m, publicId, nick, step).value.Ignored?
    ensures Guard(m, publicId) == Success(true)
    ensures IsResponse(m, GetContent(m).value, publicId, nick).Success?
  {
  }

  /** The listener that fires is the last one evaluated: no later matcher
      runs. */
  lemma FiredIsLastEvaluated<M, B>(ls: seq<Listener<M, B>>, m: Message, publicId: Option<string>, nick: string,
                                   step: Step<M, B>, k: nat, cb: B, mm: M)
    requires Dispatch(ls, m, publicId, nick, step) == Success(Fired(k, cb, mm))
    ensures var ev := Evaluated(ls, m, publicId, nick, step);
      |ev| > 0 && ev[|ev| - 1] == k
  {
    Scanned(ls, m, publicId, nick, step);
    var isResponse := IsResponse(m, GetContent(m).value, publicId, nick).value;
    DispatchScan(ls, m, publicId, nick, step, isResponse);
    LastOfScan(ls, Kept(ls, isResponse), Resolved(ls, GetContent(m).value, isResponse, step), k, cb, mm);
  }

  lemma LastOfScan<M, B>(ls: seq<Listener<M, B>>, kept: seq<nat>, r: Resolution<M>, k: nat, cb: B, mm: M)
    requires forall j :: 0 <= j < |kept| ==> kept[j] < |ls|
    requires r.Found? || r.Threw? ==> r.index < |kept|
    requires OutcomeOf(ls, kept, r) == Fired(k, cb, mm)
    ensures var ev := kept[..ScanLength(r, |kept|)];
      |ev| > 0 && ev[|ev| - 1] == k
  {
    assert r.Found? && kept[r.index] == k;
  }

  /** The position of `x` in a sequence that holds it. */
  function IndexOf(s: seq<nat>, x: nat): (i: nat)
    requires x in s
    ensures i < |s| && s[i] == x
  {
    if s[0] == x then 0 else 1 + IndexOf(s[1..], x)
  }
}
