/**
 * The handler of the newer snapshot: the lazy listings `list_messages_with_label` and
 * `list_messages_matching_query`, written out as an explicit iterator (cursor, page
 * buffer, done flag), and the `None` guards of the single-message deletions.
 */
module Handler {
  import opened Common
  import opened Paging

  /** What one `next()` on the generator produces. */
  datatype Step =
    | Yielded(message: Message)
    | Exhausted        // StopIteration: the walk ended, an HttpError was caught, or the query was None
    | KeyErrorRaised   // `response['messages']` on a later page without that key

  /** The mutable state of a pager, as a value. */
  datatype Progress = Progress(
    started: bool, cursor: Option<Token>, buffer: seq<Message>, done: bool,
    log: seq<Call>, yielded: seq<Message>)

  /** The fixed part of a pager: `walk` is the provider's chain and `plan` its traversal. */
  ghost predicate Settled(p: Provider, f: Filter, guardLater: bool, enabled: bool, walk: seq<Response>, plan: Traversal) {
    && (enabled ==> IsWalk(p, f, walk) && plan == Traverse(walk, guardLater))
    && (!enabled ==> plan == Traversal([], 0, false))
  }

  /**
   * The state after `|s.log|` list calls: the calls followed the walk's tokens, the
   * messages handed out plus the buffer are those of the pages fetched, the buffer
   * holds the rest of the last page, and a finished pager issued every planned call.
   */
  ghost predicate Consistent(f: Filter, guardLater: bool, enabled: bool, walk: seq<Response>, plan: Traversal, s: Progress) {
    && (!enabled ==> s.done && s.log == [] && s.yielded == [])
    && (s.started <==> |s.log| > 0)
    && (!s.started ==> s.cursor == None)
    && |s.log| <= plan.calls
    && |s.log| <= |walk|
    && (forall k :: 0 <= k < |s.log| ==> s.log[k] == Call(f, TokenBefore(walk, k)))
    && s.yielded + s.buffer == Collected(walk, |s.log|)
    && (s.started ==> |s.buffer| <= |PageItems(walk[|s.log| - 1])|)
    && (s.started && !s.done ==> walk[|s.log| - 1].Page? && s.cursor == walk[|s.log| - 1].nextPageToken)
    && (!s.done && plan.keyError ==> |s.log| < plan.calls)
    && (s.done ==> s.buffer == [] && |s.log| == plan.calls)
  }

  /** Ending the walk after its last page keeps the state consistent. */
  lemma FinishKeepsConsistent(p: Provider, f: Filter, guardLater: bool, enabled: bool, walk: seq<Response>, plan: Traversal, s: Progress)
    requires Settled(p, f, guardLater, enabled, walk, plan)
    requires Consistent(f, guardLater, enabled, walk, plan, s)
    requires s.buffer == [] && !s.done && s.started && s.cursor.None?
    ensures Consistent(f, guardLater, enabled, walk, plan, s.(done := true))
  {
    assert !Continues(walk[|s.log| - 1]);
  }

  /** Handing out the first buffered message keeps the state consistent. */
  lemma HandKeepsConsistent(p: Provider, f: Filter, guardLater: bool, enabled: bool, walk: seq<Response>, plan: Traversal, s: Progress)
    requires Settled(p, f, guardLater, enabled, walk, plan)
    requires Consistent(f, guardLater, enabled, walk, plan, s)
    requires s.buffer != []
    ensures Consistent(f, guardLater, enabled, walk, plan, s.(buffer := s.buffer[1..], yielded := s.yielded + [s.buffer[0]]))
    ensures |Collected(walk, |s.log| - 1)| <= |s.yielded|
  {
    assert s.yielded + [s.buffer[0]] + s.buffer[1..] == s.yielded + s.buffer;
  }

  /** One list call with the held cursor, and its response absorbed, keeps the state consistent. */
  lemma FetchKeepsConsistent(p: Provider, f: Filter, guardLater: bool, enabled: bool, walk: seq<Response>, plan: Traversal, s: Progress)
    requires Settled(p, f, guardLater, enabled, walk, plan)
    requires Consistent(f, guardLater, enabled, walk, plan, s)
    requires s.buffer == [] && !s.done && (s.started ==> s.cursor.Some?)
    ensures |s.log| < |walk| && p(Call(f, s.cursor)) == walk[|s.log|]
    ensures
      var r := p(Call(f, s.cursor));
      var raised := s.started && !guardLater && MissingMessages(r);
      && (raised ==> plan.keyError)
      && (r.HttpError? || raised ==> (plan.keyError <==> raised))
      && Consistent(f, guardLater, enabled, walk, plan,
           Progress(true, NextToken(r), PageItems(r), r.HttpError? || raised, s.log + [Call(f, s.cursor)], s.yielded))
  {
    var n := |s.log|;
    assert n < plan.calls <= |walk| by {
      if s.started { assert Continues(walk[n - 1]); }
    }
    assert s.cursor == TokenBefore(walk, n);
  }

  /**
   * A running listing generator. `guardLater` distinguishes the label variant (every
   * page guarded by `'messages' in response`) from the query variant (only the first).
   * `enabled` is false for the query variant called with `query=None`, which yields
   * nothing. `log` records the list calls issued, `yielded` the messages handed out.
   */
  class MessagePager {
    const provider: Provider
    const filter: Filter
    const guardLater: bool
    const enabled: bool
    ghost const walk: seq<Response>
    ghost const plan: Traversal   // Traverse(walk, guardLater): what draining the generator does

    var started: bool
    var cursor: Option<Token>
    var buffer: seq<Message>
    var done: bool
    ghost var log: seq<Call>
    ghost var yielded: seq<Message>

    /** The number of list calls the walk needs when drained completely. */
    ghost function Budget(): nat
      reads this
    {
      plan.calls
    }

    ghost function State(): Progress
      reads this
    {
      Progress(started, cursor, buffer, done, log, yielded)
    }

    ghost predicate Valid()
      reads this
    {
      && Settled(provider, filter, guardLater, enabled, walk, plan)
      && Consistent(filter, guardLater, enabled, walk, plan, State())
    }

    /** `list_messages_with_label(label_ids)`: nothing is called until the first `Next`. */
    constructor WithLabel(p: Provider, labelIds: Option<seq<string>>, ghost rs: seq<Response>)
      requires IsWalk(p, LabelIds(labelIds.GetOr([])), rs)
      ensures Valid()
      ensures provider == p && filter == LabelIds(labelIds.GetOr([])) && walk == rs
      ensures guardLater && enabled
      ensures !done && log == [] && yielded == [] && buffer == []
    {
      provider, filter, walk := p, LabelIds(labelIds.GetOr([])), rs;
      plan := Traverse(rs, true);
      guardLater, enabled := true, true;
      started, cursor, buffer, done := false, None, [], false;
      log, yielded := [], [];
    }

    /** `list_messages_matching_query(query)`: with `query=None` it yields nothing. */
    constructor MatchingQuery(p: Provider, query: Option<string>, ghost rs: seq<Response>)
      requires query.Some? ==> IsWalk(p, Query(query.value), rs)
      ensures Valid()
      ensures provider == p && filter == Query(query.GetOr("")) && walk == rs
      ensures !guardLater && enabled == query.Some?
      ensures done == query.None?
      ensures log == [] && yielded == [] && buffer == []
    {
      provider, filter, walk := p, Query(query.GetOr("")), rs;
      plan := if query.Some? then Traverse(rs, false) else Traversal([], 0, false);
      guardLater, enabled := false, query.Some?;
      started, cursor, buffer, done := false, None, [], query.None?;
      log, yielded := [], [];
    }

    /**
     * One list call with the held cursor (none for the first call), and the page it
     * returns put into the buffer; raises KeyError on an unguarded later page that
     * lacks `messages`, and ends the generator on an HttpError.
     */
    method FetchPage() returns (raised: bool)
      requires Valid() && buffer == [] && !done && (started ==> cursor.Some?)
      modifies this
      ensures Valid()
      ensures log == old(log) + [Call(filter, old(cursor))]
      ensures buffer == PageItems(walk[|log| - 1])
      ensures started && cursor == NextToken(walk[|log| - 1])
      ensures yielded == old(yielded)
      // an HttpError ends the generator; so does the KeyError
      ensures done <==> walk[|log| - 1].HttpError? || raised
      ensures raised <==> old(started) && !guardLater && MissingMessages(walk[|log| - 1])
      ensures raised ==> done && plan.keyError
      ensures done && plan.keyError ==> raised
    {
      var call := Call(filter, cursor);
      var response := provider(call);
      FetchKeepsConsistent(provider, filter, guardLater, enabled, walk, plan, State());
      raised := started && !guardLater && MissingMessages(response);
      log := log + [call];
      started := true;
      // `'messages' in response` guards the first page, and every page when guardLater
      buffer := PageItems(response);
      cursor := NextToken(response);
      done := response.HttpError? || raised;
    }

    /** The generator's `while 'nextPageToken' in response` fails: it returns. */
    method Finish()
      requires Valid() && buffer == [] && !done && started && cursor.None?
      modifies this
      ensures Valid() && done && log == old(log) && yielded == old(yielded) && buffer == []
    {
      FinishKeepsConsistent(provider, filter, guardLater, enabled, walk, plan, State());
      done := true;
    }

    /** `yield message` for the next message of the current page. */
    method Hand() returns (m: Message)
      requires Valid() && buffer != []
      modifies this
      ensures Valid()
      ensures m == old(buffer)[0] && buffer == old(buffer)[1..] && yielded == old(yielded) + [m]
      ensures log == old(log) && done == old(done)
      ensures |Collected(walk, |log| - 1)| < |yielded|
    {
      HandKeepsConsistent(provider, filter, guardLater, enabled, walk, plan, State());
      m := buffer[0];
      yielded := yielded + [m];
      buffer := buffer[1..];
    }

    /** One step of the generator's page loop while the buffer is empty: fetch or return. */
    method Advance() returns (raised: bool)
      requires Valid() && buffer == [] && !done
      modifies this
      ensures Valid() && yielded == old(yielded)
      ensures log == old(log) ==> done && !raised
      ensures log != old(log) ==> log == old(log) + [Call(filter, old(cursor))] && buffer == PageItems(walk[|log| - 1])
      ensures raised <==> done && plan.keyError
    {
      if !started || cursor.Some? {
        raised := FetchPage();
      } else {
        Finish();
        raised := false;
      }
    }

    /**
     * The generator's page loop: fetch pages while the buffer is empty and the walk
     * goes on. Pages fetched here, except the last, contributed no messages.
     */
    method Refill() returns (raised: bool)
      requires Valid()
      modifies this
      ensures Valid() && yielded == old(yielded) && old(log) <= log
      ensures buffer != [] || done
      ensures old(buffer) != [] || old(done) ==> log == old(log) && buffer == old(buffer) && done == old(done)
      ensures |log| > |old(log)| ==> buffer == PageItems(walk[|log| - 1])
      ensures forall k :: |old(log)| <= k < |log| - 1 ==> PageItems(walk[k]) == []
      ensures raised <==> done && plan.keyError && !old(done)
    {
      raised := false;
      while buffer == [] && !done
        invariant Valid()
        invariant old(log) <= log
        invariant yielded == old(yielded)
        invariant old(buffer) != [] || old(done) ==> log == old(log) && buffer == old(buffer) && done == old(done)
        invariant |log| > |old(log)| ==> buffer == PageItems(walk[|log| - 1])
        invariant forall k :: |old(log)| <= k < |log| - 1 ==> PageItems(walk[k]) == []
        invariant raised <==> done && plan.keyError && !old(done)
        decreases Budget() - |log|, if done then 0 else 1
      {
        raised := Advance();
      }
    }

    /**
     * One `next()`: hand out the next buffered message, fetching pages only while the
     * buffer is empty and the previous response carried a `nextPageToken`.
     */
    method Next() returns (step: Step)
      requires Valid()
      modifies this
      ensures Valid()
      // a buffered message is handed out without any list call
      ensures old(buffer) != [] ==> step == Yielded(old(buffer)[0]) && buffer == old(buffer)[1..] && log == old(log)
      // a finished generator stays finished
      ensures old(done) ==> step == Exhausted && log == old(log)
      ensures old(log) <= log
      // laziness: every page fetched by this call, except the last, contributed nothing
      ensures forall k :: |old(log)| <= k < |log| - 1 ==> PageItems(walk[k]) == []
      ensures step.Yielded? ==> yielded == old(yielded) + [step.message]
      ensures step.Yielded? ==> |Collected(walk, |log| - 1)| < |yielded|
      ensures !step.Yielded? ==> done && yielded == old(yielded) && yielded == plan.items
      ensures step.KeyErrorRaised? <==> !old(done) && done && plan.keyError && old(buffer) == [] && |log| > |old(log)|
    {
      var raised := Refill();
      if buffer != [] {
        var m := Hand();
        step := Yielded(m);
      } else if raised {
        step := KeyErrorRaised;
      } else {
        step := Exhausted;
      }
    }
  }

  /** What was handed out is a prefix of what draining the generator hands out. */
  lemma YieldedPrefix(p: Provider, f: Filter, guardLater: bool, enabled: bool, walk: seq<Response>, plan: Traversal, s: Progress)
    requires Settled(p, f, guardLater, enabled, walk, plan)
    requires Consistent(f, guardLater, enabled, walk, plan, s)
    ensures s.yielded <= plan.items
  {
    if enabled {
      CollectedPrefix(walk, |s.log|, plan.calls);
    }
  }

  /**
   * A consumer that stops early: pull at most `n` messages from a fresh pager. It
   * gets a prefix of the full traversal, and the last page it caused to be fetched
   * was needed to reach `n` messages (no page is requested before it is needed).
   */
  method Take(pager: MessagePager, n: nat) returns (items: seq<Message>, raised: bool)
    requires pager.Valid() && pager.log == [] && pager.yielded == []
    modifies pager
    ensures pager.Valid()
    ensures items == pager.yielded && |items| <= n
    ensures items <= pager.plan.items
    ensures |items| < n ==> pager.done
    ensures raised ==> pager.done && pager.plan.keyError
    // a KeyError hit while pulling reaches the consumer
    ensures pager.done && pager.plan.keyError ==> raised
    ensures n == 0 ==> pager.log == []
    ensures 0 < n && |items| == n ==> |Collected(pager.walk, |pager.log| - 1)| < n
    // a consumer content with a first page's worth of messages causes exactly one list call
    ensures pager.enabled && 0 < n <= |PageItems(pager.walk[0])| ==> |items| == n && |pager.log| == 1
  {
    items, raised := [], false;
    while |items| < n
      invariant pager.Valid()
      invariant items == pager.yielded && |items| <= n
      invariant !raised && !(pager.done && pager.plan.keyError)
      invariant |items| > 0 ==> |Collected(pager.walk, |pager.log| - 1)| < |items|
      invariant |items| == 0 ==> pager.log == []
      decreases n - |items|
    {
      var step := pager.Next();
      match step
      case Yielded(m) =>
        items := items + [m];
      case Exhausted =>
        break;
      case KeyErrorRaised =>
        raised := true;
        break;
    }
    YieldedPrefix(pager.provider, pager.filter, pager.guardLater, pager.enabled, pager.walk, pager.plan, pager.State());
    if pager.enabled && 0 < n <= |PageItems(pager.walk[0])| {
      FirstPageOneCall(pager.provider, pager.filter, pager.guardLater, pager.enabled, pager.walk, pager.plan, pager.State(), n);
    }
  }

  /**
   * A consumer that stops once it has `n` messages, `n` no more than the first page
   * holds, gets all `n` of them from the first list call alone.
   */
  lemma FirstPageOneCall(p: Provider, f: Filter, guardLater: bool, enabled: bool, walk: seq<Response>, plan: Traversal, s: Progress, n: nat)
    requires Settled(p, f, guardLater, enabled, walk, plan)
    requires Consistent(f, guardLater, enabled, walk, plan, s)
    requires enabled && 0 < n <= |PageItems(walk[0])|
    requires |s.yielded| <= n && (|s.yielded| < n ==> s.done)
    requires |s.yielded| == n ==> |s.log| > 0 && |Collected(walk, |s.log| - 1)| < n
    ensures |s.yielded| == n && |s.log| == 1
  {
    assert Collected(walk, 1) == Collected(walk, 0) + PageItems(walk[0]);
    CollectedPrefix(walk, 1, plan.calls);
    FirstPageSuffices(walk, n, |s.log|);
  }

  /**
   * A consumer that drains the generator (a `for message in ...` loop): it receives
   * exactly the traversal's messages, and the generator issued exactly its calls.
   */
  method DrainAll(pager: MessagePager) returns (items: seq<Message>, raised: bool)
    requires pager.Valid() && pager.log == [] && pager.yielded == []
    modifies pager
    ensures pager.Valid() && pager.done
    ensures items == pager.plan.items
    ensures |pager.log| == pager.plan.calls
    ensures Chained(pager.provider, pager.filter, pager.log)
    ensures raised <==> pager.plan.keyError
  {
    items, raised := [], false;
    while true
      invariant pager.Valid()
      invariant items == pager.yielded
      invariant !raised && (pager.done ==> !pager.plan.keyError)
      decreases |pager.plan.items| - |items|
    {
      YieldedPrefix(pager.provider, pager.filter, pager.guardLater, pager.enabled, pager.walk, pager.plan, pager.State());
      var step := pager.Next();
      match step
      case Yielded(m) =>
        items := items + [m];
        YieldedPrefix(pager.provider, pager.filter, pager.guardLater, pager.enabled, pager.walk, pager.plan, pager.State());
      case Exhausted =>
        break;
      case KeyErrorRaised =>
        raised := true;
        break;
    }
    if pager.enabled {
      CallsOfChained(pager.provider, pager.filter, pager.walk, pager.log);
    }
  }

  // ---------------------------------------------------------------------------
  // Single-message deletion

  datatype Endpoint = Trash | Delete

  /** A `messages().trash(id=...)` or `messages().delete(id=...)` request. */
  datatype SingleRequest = SingleRequest(endpoint: Endpoint, id: MessageId)

  /** The endpoint's answer: a response body, or an HttpError. */
  datatype SingleReply = Answered(body: string) | Failed

  /** The requests issued and the value returned (`None` when nothing was returned). */
  datatype SingleOutcome = SingleOutcome(requests: seq<SingleRequest>, returned: Option<string>)

  function Guarded(endpoint: Endpoint, service: SingleRequest -> SingleReply, msgId: Option<MessageId>): SingleOutcome {
    match msgId
    case None => SingleOutcome([], None)
    case Some(id) =>
      match service(SingleRequest(endpoint, id))
      case Answered(body) => SingleOutcome([SingleRequest(endpoint, id)], Some(body))
      case Failed => SingleOutcome([SingleRequest(endpoint, id)], None)
  }

  /** `delete_message`: move to trash; no request at all when `msg_id` is None. */
  function DeleteMessage(service: SingleRequest -> SingleReply, msgId: Option<MessageId>): (r: SingleOutcome)
    ensures msgId.None? ==> r.requests == [] && r.returned == None
    ensures msgId.Some? ==> r.requests == [SingleRequest(Trash, msgId.value)]
    ensures r.returned.Some? <==> msgId.Some? && service(SingleRequest(Trash, msgId.value)).Answered?
    ensures r.returned.Some? ==> Answered(r.returned.value) == service(SingleRequest(Trash, msgId.value))
  {
    Guarded(Trash, service, msgId)
  }

  /** `delete_message_perm`: delete for good; no request at all when `msg_id` is None. */
  function DeleteMessagePerm(service: SingleRequest -> SingleReply, msgId: Option<MessageId>): (r: SingleOutcome)
    ensures msgId.None? ==> r.requests == [] && r.returned == None
    ensures msgId.Some? ==> r.requests == [SingleRequest(Delete, msgId.value)]
    ensures r.returned.Some? <==> msgId.Some? && service(SingleRequest(Delete, msgId.value)).Answered?
    ensures r.returned.Some? ==> Answered(r.returned.value) == service(SingleRequest(Delete, msgId.value))
  {
    Guarded(Delete, service, msgId)
  }
}
