/**
 * The older script `gmail-delete.py`: eager listings that build the whole message
 * list before returning it, the per-sender histogram, the six size buckets, and the
 * menu's label-number check.
 */
module GmailDelete {
  import opened Common
  import opened Paging
  import opened Headers

  /** What an eager listing call ends in. */
  datatype Listing =
    | Listed(messages: seq<Message>)   // the list is returned
    | NoneReturned                     // an HttpError was caught: the function returns None
    | KeyErrorRaised                   // a later page without `messages`: the KeyError propagates

  /**
   * The outcome of an eager listing over the walk `rs`. Every page after the first is
   * read with `response['messages']`, so a later page lacking the key raises; an
   * HttpError (always the walk's last response) discards what was collected.
   */
  function EagerOutcome(rs: seq<Response>): (r: Listing)
    requires |rs| > 0
    ensures r.KeyErrorRaised? <==> exists k :: 0 < k < |rs| && MissingMessages(rs[k])
    ensures r.NoneReturned? <==> (forall k :: 0 < k < |rs| ==> !MissingMessages(rs[k])) && rs[|rs| - 1].HttpError?
    ensures r.Listed? ==> r.messages == Collected(rs, |rs|)
  {
    var t := Traverse(rs, false);
    if t.keyError then KeyErrorRaised
    else if rs[|rs| - 1].HttpError? then NoneReturned
    else Listed(t.items)
  }

  /**
   * The eager listing and the lazy query generator agree on the messages whenever the
   * eager one returns a list, and raise KeyError on the same walks; where the eager
   * one returns None, the generator has still yielded every message fetched.
   */
  lemma EagerAgreesWithGenerator(rs: seq<Response>)
    requires |rs| > 0
    ensures EagerOutcome(rs).Listed? ==> EagerOutcome(rs).messages == Traverse(rs, false).items
    ensures EagerOutcome(rs).KeyErrorRaised? <==> Traverse(rs, false).keyError
    ensures EagerOutcome(rs).NoneReturned? ==> Traverse(rs, false).items == Collected(rs, |rs|)
  {
  }

  /**
   * One eager listing (`ListMessagesWithLabels` / `ListMessagesMatchingQuery` differ
   * only in the filter): the first call has no token, each later one the previous
   * `nextPageToken`, each page's messages are appended, the first page's guarded.
   * `log` is the list calls issued.
   */
  method ListMessages(p: Provider, f: Filter, ghost rs: seq<Response>) returns (r: Listing, ghost log: seq<Call>)
    requires IsWalk(p, f, rs)
    ensures r == EagerOutcome(rs)
    ensures Chained(p, f, log)
    ensures |log| == Traverse(rs, false).calls
    ensures forall k :: 0 <= k < |log| ==> p(log[k]) == rs[k]
  {
    var call := Call(f, None);
    log := [call];
    var response := p(call);
    assert response == rs[0] by { assert TokenBefore(rs, 0) == None; }
    if response.HttpError? {
      CallsOfChained(p, f, rs, log);
      return NoneReturned, log;
    }
    var messages: seq<Message> := [];
    if response.messages.Some? {
      messages := messages + response.messages.value;
    }
    while Continues(response)
      invariant 1 <= |log| <= |rs|
      invariant forall k :: 0 <= k < |log| ==> log[k] == Call(f, TokenBefore(rs, k))
      invariant response == rs[|log| - 1] && response.Page?
      invariant messages == Collected(rs, |log|)
      invariant forall k :: 0 < k < |log| ==> !MissingMessages(rs[k])
      decreases |rs| - |log|
    {
      var n := |log|;
      assert n < |rs|;
      call := Call(f, response.nextPageToken);
      assert call == Call(f, TokenBefore(rs, n));
      log := log + [call];
      response := p(call);
      if response.HttpError? {
        CallsOfChained(p, f, rs, log);
        return NoneReturned, log;
      }
      if response.messages.None? {
        CallsOfChained(p, f, rs, log);
        return KeyErrorRaised, log;
      }
      messages := messages + response.messages.value;
    }
    CallsOfChained(p, f, rs, log);
    return Listed(messages), log;
  }

  /** `ListMessagesWithLabels(service, user_id, label_ids)` */
  method ListMessagesWithLabels(p: Provider, labelIds: seq<string>, ghost rs: seq<Response>) returns (r: Listing, ghost log: seq<Call>)
    requires IsWalk(p, LabelIds(labelIds), rs)
    ensures r == EagerOutcome(rs)
    ensures Chained(p, LabelIds(labelIds), log) && |log| == Traverse(rs, false).calls
  {
    r, log := ListMessages(p, LabelIds(labelIds), rs);
  }

  /** `ListMessagesMatchingQuery(service, user_id, query)` */
  method ListMessagesMatchingQuery(p: Provider, query: string, ghost rs: seq<Response>) returns (r: Listing, ghost log: seq<Call>)
    requires IsWalk(p, Query(query), rs)
    ensures r == EagerOutcome(rs)
    ensures Chained(p, Query(query), log) && |log| == Traverse(rs, false).calls
  {
    r, log := ListMessages(p, Query(query), rs);
  }

  // ---------------------------------------------------------------------------
  // Sender histogram

  /** The sender of each listed message, as `GetSender(GetMessage(...), interest)`. */
  function Senders(msgs: seq<Message>, headersOf: MessageId -> seq<Header>, interest: string): (ss: seq<Option<string>>)
    ensures |ss| == |msgs|
    ensures forall i :: 0 <= i < |msgs| ==> ss[i] == GetSender(headersOf(msgs[i].id), interest)
  {
    if |msgs| == 0 then [] else [GetSender(headersOf(msgs[0].id), interest)] + Senders(msgs[1..], headersOf, interest)
  }

  /** The count of `k` in the histogram `m` (0 when absent). */
  function CountOf(m: map<Option<string>, nat>, k: Option<string>): nat {
    if k in m then m[k] else 0
  }

  /** The sum of the counts of `keys` (insertion order) in the histogram `m`. */
  function Sum(m: map<Option<string>, nat>, keys: seq<Option<string>>): nat {
    if |keys| == 0 then 0 else Sum(m, keys[..|keys| - 1]) + CountOf(m, keys[|keys| - 1])
  }

  predicate NoDuplicates<T(==)>(keys: seq<T>) {
    forall i, j :: 0 <= i < j < |keys| ==> keys[i] != keys[j]
  }

  /** Changing the count of a key that is listed once changes the sum by the same amount. */
  lemma {:induction false} SumUpdate(m: map<Option<string>, nat>, keys: seq<Option<string>>, k: Option<string>, v: nat)
    requires NoDuplicates(keys)
    ensures k in keys ==> Sum(m[k := v], keys) + CountOf(m, k) == Sum(m, keys) + v
    ensures k !in keys ==> Sum(m[k := v], keys) == Sum(m, keys)
  {
    if |keys| > 0 {
      var init := keys[..|keys| - 1];
      SumUpdate(m, init, k, v);
      assert k in keys <==> k in init || k == keys[|keys| - 1];
      assert keys[|keys| - 1] == k ==> k !in init;
    }
  }

  /** A dict of counts with its keys in insertion order (what `plt.bar` is drawn from). */
  datatype Histogram = Histogram(counts: map<Option<string>, nat>, keys: seq<Option<string>>)

  /** The dict after counting `seen`, one sender at a time, as the loop body does. */
  function HistogramOf(seen: seq<Option<string>>): Histogram {
    if |seen| == 0 then Histogram(map[], [])
    else
      var h := HistogramOf(seen[..|seen| - 1]);
      var sender := seen[|seen| - 1];
      if sender in h.counts then Histogram(h.counts[sender := h.counts[sender] + 1], h.keys)
      else Histogram(h.counts[sender := 1], h.keys + [sender])
  }

  /** The keys are exactly the senders seen, and the key order lists exactly the keys. */
  lemma {:induction false} HistogramKeys(seen: seq<Option<string>>)
    ensures forall s :: s in HistogramOf(seen).counts <==> s in seen
    ensures forall s :: s in HistogramOf(seen).counts <==> s in HistogramOf(seen).keys
  {
    if |seen| > 0 {
      var init := seen[..|seen| - 1];
      HistogramKeys(init);
      assert seen == init + [seen[|seen| - 1]];
    }
  }

  /** Each key appears once in the key order. */
  lemma {:induction false} HistogramKeysUnique(seen: seq<Option<string>>)
    ensures NoDuplicates(HistogramOf(seen).keys)
  {
    if |seen| > 0 {
      var init := seen[..|seen| - 1];
      HistogramKeysUnique(init);
      HistogramKeys(init);
      var sender := seen[|seen| - 1];
      if sender !in HistogramOf(init).counts {
        AppendNew(HistogramOf(init).keys, sender);
      }
    }
  }

  /** Each count is the number of occurrences of its sender. */
  lemma {:induction false} HistogramCounts(seen: seq<Option<string>>)
    ensures forall s :: s in HistogramOf(seen).counts ==> HistogramOf(seen).counts[s] == multiset(seen)[s]
  {
    if |seen| > 0 {
      var init := seen[..|seen| - 1];
      HistogramCounts(init);
      HistogramKeys(init);
      var sender := seen[|seen| - 1];
      assert seen == init + [sender];
      assert forall s :: multiset(seen)[s] == multiset(init)[s] + (if s == sender then 1 else 0);
    }
  }

  /** The counts sum to the number of senders seen. */
  lemma {:induction false} HistogramTotal(seen: seq<Option<string>>)
    ensures Sum(HistogramOf(seen).counts, HistogramOf(seen).keys) == |seen|
  {
    if |seen| > 0 {
      var init := seen[..|seen| - 1];
      HistogramTotal(init);
      var h := HistogramOf(init);
      var sender := seen[|seen| - 1];
      assert sender in h.counts <==> sender in h.keys by {
        HistogramKeys(init);
      }
      HistogramKeysUnique(init);
      if sender in h.counts {
        SumUpdate(h.counts, h.keys, sender, h.counts[sender] + 1);
      } else {
        SumInsert(h.counts, h.keys, sender);
      }
    }
  }

  lemma AppendNew<T>(keys: seq<T>, x: T)
    requires NoDuplicates(keys) && x !in keys
    ensures NoDuplicates(keys + [x])
  {
    var keys' := keys + [x];
    forall i, j | 0 <= i < j < |keys'| ensures keys'[i] != keys'[j] {
      if j == |keys| {
        assert keys'[i] == keys[i];
      }
    }
  }

  /** Inserting a new key with count 1 at the end of the key order adds one to the sum. */
  lemma SumInsert(statistic: map<Option<string>, nat>, keys: seq<Option<string>>, sender: Option<string>)
    requires NoDuplicates(keys) && sender !in keys
    ensures Sum(statistic[sender := 1], keys + [sender]) == Sum(statistic, keys) + 1
  {
    SumUpdate(statistic, keys, sender, 1);
    var keys' := keys + [sender];
    assert keys'[..|keys'| - 1] == keys;
  }

  /**
   * The counting loop of `GetStatisticForUser`: each sender seen for the first time
   * is inserted with 1 (and takes its place in the dict's key order), a repeated one
   * is incremented. Afterwards the keys are exactly the senders that occur (`None`
   * for a message without one), once each in first-occurrence order, each count is
   * the number of occurrences, and the counts sum to the number of messages.
   */
  method CountSenders(senders: seq<Option<string>>) returns (statistic: map<Option<string>, nat>, keys: seq<Option<string>>)
    ensures Histogram(statistic, keys) == HistogramOf(senders)
    ensures forall s :: s in statistic <==> s in senders
    ensures forall s :: s in statistic <==> s in keys
    ensures NoDuplicates(keys)
    ensures forall s :: s in statistic ==> statistic[s] == multiset(senders)[s]
    ensures Sum(statistic, keys) == |senders|
  {
    statistic, keys := map[], [];
    for i := 0 to |senders|
      invariant Histogram(statistic, keys) == HistogramOf(senders[..i])
    {
      var sender := senders[i];
      assert senders[..i + 1][..i] == senders[..i];
      if sender in statistic {
        statistic := statistic[sender := statistic[sender] + 1];
      } else {
        statistic := statistic[sender := 1];
        keys := keys + [sender];
      }
    }
    assert senders[..|senders|] == senders;
    HistogramKeys(senders);
    HistogramKeysUnique(senders);
    HistogramCounts(senders);
    HistogramTotal(senders);
  }

  /**
   * `GetStatisticForUser(service, user_id, decision, interest)`: list the messages
   * labelled `decision`, look up each one's headers, and count senders. A listing that
   * returns None or raises aborts before any counting (Python then fails on
   * iterating None, or propagates the KeyError).
   */
  method GetStatisticForUser(p: Provider, decision: string, headersOf: MessageId -> seq<Header>, interest: string, ghost rs: seq<Response>)
    returns (listing: Listing, statistic: Option<Histogram>)
    requires IsWalk(p, LabelIds([decision]), rs)
    ensures listing == EagerOutcome(rs)
    ensures statistic.Some? <==> listing.Listed?
    ensures statistic.Some? ==>
      var senders := Senders(listing.messages, headersOf, interest);
      var h := statistic.value;
      && (forall s :: s in h.counts <==> s in senders)
      && (forall s :: s in h.counts <==> s in h.keys)
      && NoDuplicates(h.keys)
      && (forall s :: s in h.counts ==> h.counts[s] == multiset(senders)[s])
      && Sum(h.counts, h.keys) == |listing.messages|
  {
    ghost var log;
    listing, log := ListMessagesWithLabels(p, [decision], rs);
    if !listing.Listed? {
      return listing, None;
    }
    var counts, keys := CountSenders(Senders(listing.messages, headersOf, interest));
    statistic := Some(Histogram(counts, keys));
  }

  // ---------------------------------------------------------------------------
  // Size buckets

  /** The six buckets in insertion order: the key and the size filter of its query. */
  const BUCKETS: seq<(string, string)> := [
    ("<1mb", " smaller_than:1mb"),
    ("1mb<x<5mb", " smaller_than:5mb larger:1mb"),
    ("5mb<x<10mb", " smaller_than:10mb larger:5mb"),
    ("10mb<x<25mb", " smaller_than:25mb larger:10mb"),
    ("25mb<x<50mb", " smaller_than:50mb larger:25mb"),
    (">50mb", " larger:50mb")]

  /** `'label:' + label_choice + <size filter>` for bucket `i`. */
  function BucketQuery(labelChoice: string, i: nat): string
    requires i < |BUCKETS|
  {
    "label:" + labelChoice + BUCKETS[i].1
  }

  /** The ordered dict of counts, or the bucket whose listing did not produce a list. */
  datatype SizeStatistic =
    | Counted(entries: seq<(string, nat)>)
    | Aborted(bucket: nat, cause: Listing)

  /** A complete set of walks, one per bucket query. */
  ghost predicate BucketWalks(p: Provider, labelChoice: string, walks: seq<seq<Response>>) {
    |walks| == |BUCKETS| && forall i :: 0 <= i < |BUCKETS| ==> IsWalk(p, Query(BucketQuery(labelChoice, i)), walks[i])
  }

  /** `entries` are the first buckets' keys and counts, in order, each from a returned list. */
  ghost predicate CountedUpTo(walks: seq<seq<Response>>, entries: seq<(string, nat)>)
    requires |walks| == |BUCKETS| && forall i :: 0 <= i < |walks| ==> |walks[i]| > 0
  {
    && |entries| <= |BUCKETS|
    && forall i :: 0 <= i < |entries| ==>
         EagerOutcome(walks[i]).Listed? && entries[i] == (BUCKETS[i].0, |EagerOutcome(walks[i]).messages|)
  }

  /**
   * One line pair of `GetStatisticForMailSize`: list bucket `|entries|`'s query and,
   * if a list came back, store its length under the bucket's key.
   */
  method CountBucket(p: Provider, labelChoice: string, ghost walks: seq<seq<Response>>, entries: seq<(string, nat)>)
    returns (l: Listing, entries': seq<(string, nat)>)
    requires BucketWalks(p, labelChoice, walks)
    requires |entries| < |BUCKETS| && CountedUpTo(walks, entries)
    ensures l == EagerOutcome(walks[|entries|])
    ensures l.Listed? ==> |entries'| == |entries| + 1 && CountedUpTo(walks, entries')
  {
    var i := |entries|;
    ghost var log;
    l, log := ListMessagesMatchingQuery(p, BucketQuery(labelChoice, i), walks[i]);
    entries' := entries;
    if l.Listed? {
      entries' := entries + [(BUCKETS[i].0, |l.messages|)];
    }
  }

  /**
   * `GetStatisticForMailSize(service, user_id, label_choice)`: six listings in a fixed
   * order, each count stored under its bucket's key. `len(None)` on a listing that
   * returned None, or its KeyError, aborts the rest.
   */
  method GetStatisticForMailSize(p: Provider, labelChoice: string, ghost walks: seq<seq<Response>>) returns (r: SizeStatistic)
    requires BucketWalks(p, labelChoice, walks)
    ensures r.Counted? <==> forall i :: 0 <= i < |BUCKETS| ==> EagerOutcome(walks[i]).Listed?
    ensures r.Counted? ==> (|r.entries| == |BUCKETS| &&
      forall i :: 0 <= i < |BUCKETS| ==> r.entries[i] == (BUCKETS[i].0, |EagerOutcome(walks[i]).messages|))
    ensures r.Aborted? ==> (r.bucket < |BUCKETS| && r.cause == EagerOutcome(walks[r.bucket]) && !r.cause.Listed?
      && forall i :: 0 <= i < r.bucket ==> EagerOutcome(walks[i]).Listed?)
  {
    var l, entries := CountBucket(p, labelChoice, walks, []);
    if !l.Listed? { return Aborted(0, l); }
    l, entries := CountBucket(p, labelChoice, walks, entries);
    if !l.Listed? { return Aborted(1, l); }
    l, entries := CountBucket(p, labelChoice, walks, entries);
    if !l.Listed? { return Aborted(2, l); }
    l, entries := CountBucket(p, labelChoice, walks, entries);
    if !l.Listed? { return Aborted(3, l); }
    l, entries := CountBucket(p, labelChoice, walks, entries);
    if !l.Listed? { return Aborted(4, l); }
    l, entries := CountBucket(p, labelChoice, walks, entries);
    if !l.Listed? { return Aborted(5, l); }
    return Counted(entries);
  }

  /** The six keys are distinct, so the ordered dict ends with six entries. */
  lemma BucketKeysDistinct()
    ensures forall i, j :: 0 <= i < j < |BUCKETS| ==> BUCKETS[i].0 != BUCKETS[j].0
  {
    assert BUCKETS[0].0 == "<1mb" && BUCKETS[1].0 == "1mb<x<5mb" && BUCKETS[2].0 == "5mb<x<10mb";
    assert BUCKETS[3].0 == "10mb<x<25mb" && BUCKETS[4].0 == "25mb<x<50mb" && BUCKETS[5].0 == ">50mb";
    assert BUCKETS[0].0[0] == '<' && BUCKETS[5].0[0] == '>';
    assert BUCKETS[1].0[0] == '1' && BUCKETS[2].0[0] == '5' && BUCKETS[3].0[0] == '1' && BUCKETS[4].0[0] == '2';
    assert BUCKETS[1].0[1] == 'm' && BUCKETS[3].0[1] == '0';
  }

  // ---------------------------------------------------------------------------
  // Label choice

  /** A label as returned by `labels().list()`. */
  datatype Label = Label(id: string, name: string)

  /**
   * The menu's check on the typed number: `label_choice <= 0 or label_choice >=
   * len(labels) + 1` rejects it (`continue`); otherwise `labels[label_choice-1]` is used.
   */
  function ChooseLabel(labels: seq<Label>, choice: int): (r: Option<Label>)
    ensures r.Some? <==> 1 <= choice <= |labels|
    ensures r.Some? ==> r.value == labels[choice - 1]
  {
    if choice <= 0 || choice >= |labels| + 1 then None else Some(labels[choice - 1])
  }

  /** The number printed before each label (`i+1`) selects exactly that label. */
  lemma MenuNumberSelects(labels: seq<Label>, i: nat)
    requires i < |labels|
    ensures ChooseLabel(labels, i + 1) == Some(labels[i])
  {
  }

  /** Every accepted number is one the menu printed. */
  lemma ChoiceWasPrinted(labels: seq<Label>, choice: int)
    requires ChooseLabel(labels, choice).Some?
    ensures exists i :: 0 <= i < |labels| && choice == i + 1 && ChooseLabel(labels, choice) == Some(labels[i])
  {
    assert choice == (choice - 1) + 1;
  }
}
