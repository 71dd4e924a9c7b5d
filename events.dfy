/**
 * The webhook handler `handle_slack_events` (appweb.py lines 57-169): classify the
 * inbound payload, consult the throttle for actionable events, call the generation
 * backend and post the reply or a notice. The Slack and Gemini calls are abstracted:
 * the generation result and the failure of the reply post are inputs, and the posts
 * the handler attempts are an output.
 */
module SlackEvents {
  import opened Wrappers
  import opened Text
  import opened Notices
  import opened RateLimit

  /**
   * The `event` object of a Slack callback; None is an absent field. A `subtype`,
   * `user` or `channel` that is JSON null reads as absent, as `event.get` returns None
   * for both. A null `text` or `event` is not part of this model.
   */
  datatype Event = Event(
    eventType: Option<string>,
    user: Option<string>,
    channel: Option<string>,
    text: Option<string>,
    subtype: Option<string>,
    channelType: Option<string>)

  /** The JSON body of a callback: an empty or missing body is Payload(None, None). */
  datatype Payload = Payload(challenge: Option<string>, event: Option<Event>)

  /** What the handler makes of a request, in priority order. */
  datatype Category =
    | VerificationChallenge(value: string)
    | DuplicateRetry
    | ChannelMention(user: Option<string>, channel: Option<string>, text: string)
    | DirectMessage(user: Option<string>, channel: Option<string>, text: string)
    | Ignored

  /** The outcome of `model.generate_content(...).text`. */
  datatype Generation = Generated(text: string) | GenerationFailed(message: string)

  /** One `chat_postMessage` call the handler makes. */
  datatype Post = Post(channel: Option<string>, text: string)

  /** The JSON body of the HTTP response. */
  datatype Response = ChallengeEcho(challenge: string) | StatusOk | StatusThrottled

  /** What one callback produces: the posts attempted, the response, the prompt sent
      to the generation backend (None when it was not called). */
  datatype Reply = Reply(posts: seq<Post>, response: Response, prompt: Option<string>)

  /** A reply, whether the throttle was consulted, and the throttle window afterwards. */
  datatype Outcome = Outcome(reply: Reply, throttleChecked: bool, window: seq<int>)

  /** The `X-Slack-Retry-Num` header says this is a redelivery. */
  predicate IsRetry(retry: Option<int>)
    ensures retry.None? ==> !IsRetry(retry)
    ensures IsRetry(retry) ==> retry != Some(0)
  {
    retry.Some? && retry.value > 0
  }

  /** `event.get("text", "")`. */
  function TextOf(e: Event): (t: string)
    ensures e.text.None? ==> t == ""
    ensures e.text.Some? ==> t == e.text.value
  {
    match e.text
    case Some(t) => t
    case None => ""
  }

  /** A direct message from a user: a `message` event in an `im` channel with no subtype. */
  predicate IsUserDirectMessage(e: Event)
    ensures IsUserDirectMessage(e) ==> e.eventType != Some("app_mention") && e.subtype.None?
  {
    e.eventType == Some("message") && e.channelType == Some("im") && e.subtype.None?
  }

  /**
   * The classifier: a challenge wins over everything, then a retry header, then a
   * mention, then a user's direct message; anything else is ignored.
   */
  function Classify(p: Payload, retry: Option<int>): (c: Category)
    ensures c.VerificationChallenge? <==> p.challenge.Some?
    ensures c.VerificationChallenge? ==> c.value == p.challenge.value
    ensures c.DuplicateRetry? <==> p.challenge.None? && IsRetry(retry)
    ensures c.ChannelMention? <==>
              p.challenge.None? && !IsRetry(retry)
              && p.event.Some? && p.event.value.eventType == Some("app_mention")
    ensures c.DirectMessage? <==>
              p.challenge.None? && !IsRetry(retry)
              && p.event.Some? && IsUserDirectMessage(p.event.value)
    ensures (c.ChannelMention? || c.DirectMessage?) ==>
              c.user == p.event.value.user && c.channel == p.event.value.channel
              && c.text == TextOf(p.event.value)
  {
    if p.challenge.Some? then VerificationChallenge(p.challenge.value)
    else if IsRetry(retry) then DuplicateRetry
    else match p.event
      case None => Ignored
      case Some(e) =>
        if e.eventType == Some("app_mention") then ChannelMention(e.user, e.channel, TextOf(e))
        else if IsUserDirectMessage(e) then DirectMessage(e.user, e.channel, TextOf(e))
        else Ignored
  }

  /** The categories that consult the throttle and may call the generation backend. */
  predicate Actionable(c: Category)
  {
    c.ChannelMention? || c.DirectMessage?
  }

  /** How a post opens: the user's mention in a channel, nothing in a direct message. */
  function Addressee(c: Category): (a: string)
    requires Actionable(c)
    ensures a == [] <==> c.DirectMessage?
    ensures c.ChannelMention? ==> |a| >= 4 && StartsWith(a, "<@") && EndsWith(a, "> ")
    ensures c.ChannelMention? && c.user.Some? ==> a[2..|a| - 2] == c.user.value
    ensures c.ChannelMention? && c.user.None? ==> a == "<@None> "
  {
    if c.ChannelMention? then Mention(c.user) else ""
  }

  /** The prompt: the question after the mention markup, or the direct message as is. */
  function Prompt(c: Category): (q: string)
    requires Actionable(c)
    ensures c.DirectMessage? ==> q == c.text
    ensures c.ChannelMention? ==> q == [] || (!IsSpace(q[0]) && !IsSpace(q[|q| - 1]))
    ensures c.ChannelMention? && '>' !in c.text ==> q == Strip(c.text)
    ensures c.ChannelMention? ==> q == ExtractQuestion(c.text)
  {
    if c.ChannelMention? then ExtractQuestion(c.text) else c.text
  }

  /**
   * The posts of an admitted request to channel `to`, each opening with `head`: the
   * generated text, or the error notice when generation fails; when posting the
   * generated text fails (`delivery` holds the error), the notice follows it.
   */
  function Answer(to: Option<string>, head: string, gen: Generation, delivery: Option<string>)
    : (posts: seq<Post>)
    ensures 1 <= |posts| <= 2
    ensures forall i :: 0 <= i < |posts| ==> posts[i].channel == to && StartsWith(posts[i].text, head)
    ensures gen.Generated? ==> posts[0].text == head + gen.text
    ensures gen.GenerationFailed? ==> posts[0].text == ErrorNotice(head, gen.message)
    ensures |posts| == 2 <==> gen.Generated? && delivery.Some?
    ensures |posts| == 2 ==> posts[1].text == ErrorNotice(head, delivery.value)
  {
    match gen
    case GenerationFailed(m) => [Post(to, ErrorNotice(head, m))]
    case Generated(t) =>
      assert (head + t)[..|head|] == head;
      match delivery
      case None => [Post(to, head + t)]
      case Some(m) => [Post(to, head + t), Post(to, ErrorNotice(head, m))]
  }

  /**
   * The reply pipeline once the throttle has decided: nothing to do for a challenge,
   * a retry or an ignored event; the fixed notice for a throttled request; otherwise
   * the answer, and the prompt that was sent to the generation backend.
   */
  function Dispatch(c: Category, throttled: bool, gen: Generation, delivery: Option<string>): (r: Reply)
    ensures r.posts != [] <==> Actionable(c)
    ensures r.response == StatusThrottled <==> Actionable(c) && throttled
    ensures r.response.ChallengeEcho? <==> c.VerificationChallenge?
    ensures r.response.ChallengeEcho? ==> r.response.challenge == c.value
    ensures r.prompt.Some? <==> Actionable(c) && !throttled
    ensures r.prompt.Some? ==> r.prompt.value == Prompt(c)
    ensures Actionable(c) ==>
              forall i :: 0 <= i < |r.posts| ==>
                r.posts[i].channel == c.channel && StartsWith(r.posts[i].text, Addressee(c))
    ensures Actionable(c) && throttled ==> r.posts == [Post(c.channel, Addressee(c) + ThrottledText)]
    ensures Actionable(c) && !throttled ==> r.posts == Answer(c.channel, Addressee(c), gen, delivery)
  {
    match c
    case VerificationChallenge(v) => Reply([], ChallengeEcho(v), None)
    case DuplicateRetry => Reply([], StatusOk, None)
    case Ignored => Reply([], StatusOk, None)
    case _ =>
      if throttled then
        assert StartsWith(Addressee(c) + ThrottledText, Addressee(c)) by {
          assert (Addressee(c) + ThrottledText)[..|Addressee(c)|] == Addressee(c);
        }
        Reply([Post(c.channel, Addressee(c) + ThrottledText)], StatusThrottled, None)
      else Reply(Answer(c.channel, Addressee(c), gen, delivery), StatusOk, Some(Prompt(c)))
  }

  /**
   * One callback end to end, given the throttle window before it: the specification
   * that `HandleSlackEvents` implements.
   */
  function Handle(p: Payload, retry: Option<int>, window: seq<int>, now: int,
                  gen: Generation, delivery: Option<string>): (o: Outcome)
    ensures p.challenge.Some? ==>
              o == Outcome(Reply([], ChallengeEcho(p.challenge.value), None), false, window)
    ensures p.challenge.None? && IsRetry(retry) ==>
              o == Outcome(Reply([], StatusOk, None), false, window)
    ensures !o.throttleChecked ==>
              o.reply.posts == [] && o.reply.prompt.None? && o.window == window
              && o.reply.response != StatusThrottled
    ensures p.challenge.None? && !o.throttleChecked ==> o.reply.response == StatusOk
    ensures o.throttleChecked <==>
              p.challenge.None? && !IsRetry(retry) && p.event.Some?
              && (p.event.value.eventType == Some("app_mention") || IsUserDirectMessage(p.event.value))
    ensures o.reply.response == StatusThrottled <==>
              o.throttleChecked && |Recent(window, now)| >= MaxRequestsPerMinute
    ensures o.reply.response == StatusThrottled ==>
              |o.reply.posts| == 1 && o.reply.prompt.None? && o.window == Recent(window, now)
    ensures o.reply.prompt.Some? ==>
              o.throttleChecked && o.window == Recent(window, now) + [now]
    ensures o.reply.prompt.Some? ==>
              o.reply.prompt.value ==
                if p.event.value.eventType == Some("app_mention")
                then ExtractQuestion(TextOf(p.event.value))
                else TextOf(p.event.value)
    ensures o.throttleChecked && |Recent(window, now)| < MaxRequestsPerMinute ==>
              && o.reply.prompt.Some? && o.reply.response == StatusOk
              && o.reply.posts == Answer(p.event.value.channel, Addressee(Classify(p, retry)), gen, delivery)
    ensures o.reply.response == StatusThrottled ==>
              o.reply.posts == [Post(p.event.value.channel, Addressee(Classify(p, retry)) + ThrottledText)]
    ensures forall i :: 0 <= i < |o.reply.posts| ==> o.reply.posts[i].channel == p.event.value.channel
    ensures |window| <= MaxRequestsPerMinute ==> |o.window| <= MaxRequestsPerMinute
  {
    var c := Classify(p, retry);
    if Actionable(c) then
      var v := Step(window, now);
      Outcome(Dispatch(c, v.throttled, gen, delivery), true, v.window)
    else
      Outcome(Dispatch(c, false, gen, delivery), false, window)
  }

  /** `handle_slack_events` against the process-wide throttle. */
  method HandleSlackEvents(limiter: RequestThrottle, p: Payload, retry: Option<int>, now: int,
                           gen: Generation, delivery: Option<string>)
    returns (reply: Reply, throttleChecked: bool)
    requires limiter.Valid()
    modifies limiter
    ensures limiter.Valid()
    ensures Outcome(reply, throttleChecked, limiter.timestamps)
         == Handle(p, retry, old(limiter.timestamps), now, gen, delivery)
  {
    var c := Classify(p, retry);
    if !Actionable(c) {
      return Dispatch(c, false, gen, delivery), false;
    }
    var throttled := limiter.ThrottleRequests(now);
    reply := Dispatch(c, throttled, gen, delivery);
    throttleChecked := true;
  }

  /** A direct message that carries a subtype (a join or topic notice) is ignored. */
  lemma SubtypedDirectMessageIgnored(p: Payload, retry: Option<int>, window: seq<int>, now: int,
                                     gen: Generation, delivery: Option<string>)
    requires p.challenge.None? && p.event.Some? && p.event.value.subtype.Some?
    requires p.event.value.eventType == Some("message") && p.event.value.channelType == Some("im")
    ensures Handle(p, retry, window, now, gen, delivery)
         == Outcome(Reply([], StatusOk, None), false, window)
  {
  }

  /**
   * A mention "<@BOT> hello" answered with "hi there" posts "<@USER> hi there" to the
   * event's channel, having asked the backend "hello".
   */
  lemma MentionAnswered(window: seq<int>, now: int)
    requires |Recent(window, now)| < MaxRequestsPerMinute
    ensures var e := Event(Some("app_mention"), Some("USER"), Some("C1"), Some("<@BOT> hello"), None, None);
      Handle(Payload(None, Some(e)), None, window, now, Generated("hi there"), None)
        == Outcome(Reply([Post(Some("C1"), "<@USER> hi there")], StatusOk, Some("hello")),
                   true, Recent(window, now) + [now])
  {
    var e := Event(Some("app_mention"), Some("USER"), Some("C1"), Some("<@BOT> hello"), None, None);
    var c := Classify(Payload(None, Some(e)), None);
    assert c == ChannelMention(Some("USER"), Some("C1"), "<@BOT> hello");
    HelloExample();
    MentionReplyText();
    var v := Step(window, now);
    assert !v.throttled;
  }

  lemma MentionReplyText()
    ensures Mention(Some("USER")) + "hi there" == "<@USER> hi there"
  {
  }

  /**
   * A generation error that mentions a quota hit yields the quota notice, never the
   * unsupported-content or the generic one, even when it also says "InvalidArgument".
   */
  lemma QuotaErrorGetsQuotaNotice(c: Category, message: string)
    requires Actionable(c) && Contains(message, "429")
    ensures var r := Dispatch(c, false, GenerationFailed(message), None);
      && |r.posts| == 1
      && EndsWith(r.posts[0].text, QuotaSuffix)
      && !EndsWith(r.posts[0].text, UnsupportedSuffix)
      && !EndsWith(r.posts[0].text, UnexpectedSuffix)
  {
    var r := Dispatch(c, false, GenerationFailed(message), None);
    assert r.posts == Answer(c.channel, Addressee(c), GenerationFailed(message), None);
    QuotaNotice(Addressee(c), message);
  }
}
