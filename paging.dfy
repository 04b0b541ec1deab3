/**
 * The remote message listing, seen from the client: a list call carries a filter
 * (label ids or a search query) and an optional page token, and the provider answers
 * with a page (an optional `messages` list and an optional `nextPageToken`) or an
 * HTTP error. The provider itself is abstract: any total function from calls to
 * responses. A finite listing is a `walk`: the responses obtained by starting without
 * a token and following each `nextPageToken` until one is absent.
 */
module Paging {
  import opened Common

  type Token = string
  type MessageId = string

  /** A listed message: the provider returns its id and its thread id. */
  datatype Message = Message(id: MessageId, threadId: string)

  /** The two selection modes of a list call; they are never combined. */
  datatype Filter = LabelIds(ids: seq<string>) | Query(q: string)

  /** One `messages().list(...)` call: its filter and its `pageToken`, if any. */
  datatype Call = Call(filter: Filter, pageToken: Option<Token>)

  /** What one list call produces; `HttpError` stands for the raised `errors.HttpError`. */
  datatype Response =
    | HttpError
    | Page(messages: Option<seq<Message>>, nextPageToken: Option<Token>)

  type Provider = Call -> Response

  /** `'nextPageToken' in response` */
  predicate Continues(r: Response) {
    r.Page? && r.nextPageToken.Some?
  }

  function NextToken(r: Response): Option<Token> {
    if r.Page? then r.nextPageToken else None
  }

  /** The page token carried by the k-th list call of a traversal of `rs`. */
  function TokenBefore(rs: seq<Response>, k: nat): Option<Token>
    requires k <= |rs|
  {
    if k == 0 then None else NextToken(rs[k - 1])
  }

  /**
   * `rs` is the complete chain of responses the provider `p` gives for filter `f`:
   * the first call has no token, each later call carries the previous response's
   * `nextPageToken`, and the chain ends at the first response without one.
   */
  ghost predicate IsWalk(p: Provider, f: Filter, rs: seq<Response>) {
    && |rs| > 0
    && (forall k {:trigger TokenBefore(rs, k)} :: 0 <= k < |rs| ==> rs[k] == p(Call(f, TokenBefore(rs, k))))
    && (forall k :: 0 <= k < |rs| - 1 ==> Continues(rs[k]))
    && !Continues(rs[|rs| - 1])
  }

  /**
   * The list-call log `log` follows the token protocol for filter `f`: the first call
   * has no token, and every later call has the same filter and exactly the
   * `nextPageToken` of the response to the call before it.
   */
  ghost predicate Chained(p: Provider, f: Filter, log: seq<Call>) {
    && (|log| > 0 ==> log[0] == Call(f, None))
    && (forall k :: 0 <= k < |log| - 1 ==> Continues(p(log[k])) && log[k + 1] == Call(f, p(log[k]).nextPageToken))
  }

  /** The messages a page contributes when it is guarded by `'messages' in response`. */
  function PageItems(r: Response): seq<Message> {
    if r.Page? && r.messages.Some? then r.messages.value else []
  }

  /** A page without the `messages` key: unguarded access raises KeyError on it. */
  predicate MissingMessages(r: Response) {
    r.Page? && r.messages.None?
  }

  /** The in-order concatenation of the messages of the first `n` pages of `rs`. */
  function Collected(rs: seq<Response>, n: nat): seq<Message>
    requires n <= |rs|
  {
    if n == 0 then [] else Collected(rs, n - 1) + PageItems(rs[n - 1])
  }

  /** The least index `j >= from` whose page lacks `messages`, or `|rs|` if there is none. */
  function FirstMissing(rs: seq<Response>, from: nat): (j: nat)
    requires from <= |rs|
    ensures from <= j <= |rs|
    ensures j < |rs| ==> MissingMessages(rs[j])
    ensures forall i :: from <= i < j ==> !MissingMessages(rs[i])
    decreases |rs| - from
  {
    if from == |rs| then from
    else if MissingMessages(rs[from]) then from
    else FirstMissing(rs, from + 1)
  }

  /**
   * What a complete traversal of the walk `rs` produces: the messages it yields, the
   * number of list calls it issues, and whether it stops by a KeyError. With
   * `guardLater` every page is guarded by `'messages' in response`; without it only
   * the first page is, and a later page lacking the key stops the traversal.
   */
  datatype Traversal = Traversal(items: seq<Message>, calls: nat, keyError: bool)

  function Traverse(rs: seq<Response>, guardLater: bool): (t: Traversal)
    requires |rs| > 0
    ensures 1 <= t.calls <= |rs|
    ensures t.items == Collected(rs, t.calls)
    ensures !t.keyError ==> t.calls == |rs|
    ensures t.keyError ==> !guardLater && t.calls > 1 && MissingMessages(rs[t.calls - 1])
    ensures forall k :: 0 < k < t.calls && MissingMessages(rs[k]) && !guardLater ==> t.keyError && k == t.calls - 1
    ensures guardLater ==> t == Traversal(Collected(rs, |rs|), |rs|, false)
  {
    if guardLater then Traversal(Collected(rs, |rs|), |rs|, false)
    else
      var j := FirstMissing(rs, 1);
      if j < |rs| then Traversal(Collected(rs, j + 1), j + 1, true)
      else Traversal(Collected(rs, |rs|), |rs|, false)
  }

  // ---------------------------------------------------------------------------
  // Properties of walks and traversals

  /** Two walks of the same provider and filter agree on their first k responses. */
  lemma {:induction false} WalksAgree(p: Provider, f: Filter, a: seq<Response>, b: seq<Response>, k: nat)
    requires IsWalk(p, f, a) && IsWalk(p, f, b)
    requires k < |a| && k < |b|
    ensures a[k] == b[k]
  {
    if k > 0 {
      WalksAgree(p, f, a, b, k - 1);
    }
    assert TokenBefore(a, k) == TokenBefore(b, k);
  }

  /** The provider's walk for a filter is unique: the token protocol determines it. */
  lemma WalkUnique(p: Provider, f: Filter, a: seq<Response>, b: seq<Response>)
    requires IsWalk(p, f, a) && IsWalk(p, f, b)
    ensures a == b
  {
    if |a| < |b| {
      WalksAgree(p, f, a, b, |a| - 1);
      assert false;
    } else if |b| < |a| {
      WalksAgree(p, f, a, b, |b| - 1);
      assert false;
    }
    forall k | 0 <= k < |a| ensures a[k] == b[k] {
      WalksAgree(p, f, a, b, k);
    }
  }

  /** A log of calls that follows a walk's tokens obeys the token protocol. */
  lemma CallsOfChained(p: Provider, f: Filter, rs: seq<Response>, log: seq<Call>)
    requires IsWalk(p, f, rs)
    requires |log| <= |rs|
    requires forall k :: 0 <= k < |log| ==> log[k] == Call(f, TokenBefore(rs, k))
    ensures Chained(p, f, log)
    ensures forall k :: 0 <= k < |log| ==> p(log[k]) == rs[k]
  {
    forall k | 0 <= k < |log| - 1
      ensures Continues(p(log[k])) && log[k + 1] == Call(f, p(log[k]).nextPageToken)
    {
      assert p(log[k]) == rs[k];
    }
  }

  /** The messages of a shorter prefix of pages are a prefix of those of a longer one. */
  lemma {:induction false} CollectedPrefix(rs: seq<Response>, m: nat, n: nat)
    requires m <= n <= |rs|
    ensures Collected(rs, m) <= Collected(rs, n)
    decreases n - m
  {
    if m < n {
      CollectedPrefix(rs, m, n - 1);
    }
  }

  /**
   * Exactly-once, in page order: the j-th message of page k stands in the traversal
   * of the first n pages right after all messages of the pages before k.
   */
  lemma CollectedAt(rs: seq<Response>, n: nat, k: nat, j: nat)
    requires k < n <= |rs| && j < |PageItems(rs[k])|
    ensures |Collected(rs, k)| + j < |Collected(rs, n)|
    ensures Collected(rs, n)[|Collected(rs, k)| + j] == PageItems(rs[k])[j]
  {
    CollectedPrefix(rs, k + 1, n);
  }

  /**
   * A consumer that needs at most the first page's messages needs no second call:
   * if the pages before the last fetched one held fewer than `n` messages and the
   * first page alone holds `n`, only the first page was fetched.
   */
  lemma FirstPageSuffices(rs: seq<Response>, n: nat, m: nat)
    requires 1 <= m <= |rs|
    requires 0 < n <= |PageItems(rs[0])|
    requires |Collected(rs, m - 1)| < n
    ensures m == 1
  {
    assert Collected(rs, 1) == Collected(rs, 0) + PageItems(rs[0]);
    if m > 1 {
      CollectedPrefix(rs, 1, m - 1);
    }
  }

  /** When no later page lacks `messages`, guarding later pages changes nothing. */
  lemma GuardIrrelevantWithoutMissing(rs: seq<Response>)
    requires |rs| > 0
    requires forall k :: 0 < k < |rs| ==> !MissingMessages(rs[k])
    ensures Traverse(rs, false) == Traverse(rs, true)
  {
  }
}
