# Gmail-deleter: paged listing, batch delete and sender extraction

Gmail-deleter is a bulk mailbox tool on top of the Gmail API. This project is a
Dafny model of the parts of it that hold real logic:

- **Paged listing.** A `messages().list` call carries a filter: label ids or a search
  query. It returns a page with an optional `messages` list and an optional
  `nextPageToken`, or it raises an HttpError. The listing starts without a token and
  follows each `nextPageToken` until a page comes back without one.
  - The handler of the newer snapshot (`src/gmail_handler.py`) does this lazily, in
    generators. They are modelled as the `Handler.MessagePager` class: a cursor, a
    page buffer and a done flag, with a ghost log of the list calls issued.
  - The older script (`gmail-delete.py`) does it eagerly and returns a list. That is
    `GmailDelete.ListMessages`, a loop that follows the tokens.
- **Batch delete.** `GmailBulkHandler.delete_messages_perm` extends a rolling buffer per
  message. It sends one `batchDelete` whenever the buffer length is exactly 1000, and
  a last one for whatever remains (`BulkDelete`).
- **Sender extraction.** `get_sender` / `GetSender` return the address in the first
  header whose name matches case-insensitively and whose value has a space-separated
  field containing `@` (`Headers`).
- **Statistics in the older script.** The per-sender counting loop, the six size
  buckets, and the menu's check on the chosen label number (`GmailDelete`).

The provider is abstract: any function from a list call to a response. A finite
listing is a *walk* (`Paging.IsWalk`). That is the chain of responses the provider
gives when started without a token and fed back each `nextPageToken`.
`Paging.Traverse` states what a full traversal of a walk yields, how many calls it
issues, and whether it stops on a KeyError. Everything else is proved against it.

Files:

- `common.dfy`: `Option`.
- `paging.dfy`: calls, responses, walks, traversals.
- `handler.dfy`: the lazy pager and the single-message deletions.
- `headers.dfy`: header matching, splitting, stripping and `GetSender`.
- `bulk.dfy`: the batch-delete buffer.
- `gmail_delete.dfy`: the eager listings and the statistics.

## Model

The contracts below are stated against these reference definitions. They have no rows of their own because each is a plain definition without an `ensures`:

- `BulkDelete.Flushes` is the flush rule of src/gmail_handler.py:186-194: send the buffer when an extension leaves it at exactly 1000, and send what is left at the end.
- `GmailDelete.HistogramOf` is the dict after counting a sequence of senders one at a time (gmail-delete.py:218-225).
- `Headers.Offered` is the address one header offers for `interest` (src/gmail_handler.py:158-166).
- `Handler.Guarded` is the `msg_id is not None` guard and caught HttpError of src/gmail_handler.py:22-27 and 40-46.
- `Paging.Collected` is the in-order messages of the first `n` pages.

| member | source | states |
|---|---|---|
| Paging.Traverse | src/gmail_handler.py:79-126 | A full traversal yields the in-order messages of the pages it fetched and makes at least one call. It reaches the end of the walk unless it stops on a KeyError. A KeyError happens only without the later-page guard, and exactly at the first later page lacking `messages`. With the guard, it is the whole walk with no error. |
| Paging.FirstMissing | src/gmail_handler.py:119-124 | The first page at or after `from` that lacks `messages`; every page before it has the key. |
| Paging.WalksAgree | src/gmail_handler.py:86-90 | A fact about the abstraction, not a promise of the source. Because the provider is a function of the call, two walks of one provider and filter agree response by response. |
| Paging.WalkUnique | src/gmail_handler.py:86-90 | A fact about the abstraction, not a promise of the source. The ghost walk given to the pagers and to `ListMessages` is not a free choice: two walks for one provider and filter are equal. |
| Paging.CallsOfChained | src/gmail_handler.py:80-90 | Calls that carry the walk's tokens obey the protocol. The first call has no token. Each later call has the same filter and the previous response's `nextPageToken`. Those calls get exactly the walk's responses. |
| Paging.CollectedPrefix | src/gmail_handler.py:82-93 | The messages of fewer pages are a prefix of those of more pages. |
| Paging.CollectedAt | src/gmail_handler.py:82-93 | Exactly once, in order: message `j` of page `k` comes right after all messages of the pages before `k`. |
| Paging.FirstPageSuffices | src/gmail_handler.py:79-84 | If the first page holds the `n` messages a consumer needs, no second page was requested. |
| Paging.GuardIrrelevantWithoutMissing | src/gmail_handler.py:115-124 | When no later page lacks `messages`, the query variant (first page guarded only) and the label variant (every page guarded) traverse alike. |
| Handler.FinishKeepsConsistent | src/gmail_handler.py:86 | Leaving the page loop when the last response has no `nextPageToken` finishes the state consistently: every planned call has been made. |
| Handler.HandKeepsConsistent | src/gmail_handler.py:83-84 | Yielding the first buffered message keeps what was yielded plus the buffer equal to the fetched pages' messages. |
| Handler.FetchKeepsConsistent | src/gmail_handler.py:86-95 | One call with the held cursor gets the walk's next response. A KeyError there is the traversal's KeyError. An HttpError or KeyError ends it exactly when the plan ends. |
| Handler.MessagePager.WithLabel | src/gmail_handler.py:63-81 | `label_ids=None` becomes `[]`; the pager starts with no calls, nothing yielded and nothing buffered. |
| Handler.MessagePager.MatchingQuery | src/gmail_handler.py:97-114 | With `query=None` the pager is finished from the start and never calls; otherwise it starts as the label variant does, with only the first page guarded. |
| Handler.MessagePager.FetchPage | src/gmail_handler.py:80-93 | Appends exactly one call, carrying the held cursor, to the log. The buffer becomes that page's messages and the cursor its `nextPageToken`. The pager is finished exactly on an HttpError or a KeyError. A KeyError happens exactly on a later unguarded page without `messages`. |
| Handler.MessagePager.Finish | src/gmail_handler.py:86 | A response without `nextPageToken` ends the generator with no further call. |
| Handler.MessagePager.Hand | src/gmail_handler.py:83-84 | Yields the first buffered message and removes it; no call is made. |
| Handler.MessagePager.Advance | src/gmail_handler.py:86-93 | With an empty buffer, the pager either makes the next call of the walk or finishes without one. |
| Handler.MessagePager.Refill | src/gmail_handler.py:86-93 | Calls are made only while the buffer is empty and the walk goes on. Every page fetched before the last one was empty. Nothing happens while messages are buffered or the pager is finished. |
| Handler.MessagePager.Next | src/gmail_handler.py:79-95 | One `next()`: a buffered message is yielded without any call, and a finished pager stays finished with no call. Only empty pages are skipped. Stopping means every message of the traversal has been yielded. KeyError is raised exactly once, by the fetch that hits it. |
| Handler.YieldedPrefix | src/gmail_handler.py:82-93 | What has been yielded so far is a prefix of what draining yields. |
| Handler.Take | src/gmail_handler.py:83-93 | A consumer that stops after `n` messages gets a prefix of the traversal. With `n == 0` no call is made. The last page fetched was needed to reach `n`. The consumer is told of a KeyError exactly when one was hit while pulling. If the first page holds `n` messages, the consumer gets them with exactly one list call. |
| Handler.FirstPageOneCall | src/gmail_handler.py:80-86 | A consumer satisfied by a first page's worth of messages receives all of them and causes exactly one list call. |
| Handler.DrainAll | src/gmail_handler.py:79-95 | Draining yields exactly the traversal's messages with exactly its calls, chained by tokens. KeyError is raised exactly when the traversal has one. |
| Handler.DeleteMessage | src/gmail_handler.py:22-27 | Stated about `Handler.Guarded` on the `trash` endpoint. `msg_id=None` makes no call. Otherwise exactly one `trash` call is made, and the response is returned exactly when the call does not fail. |
| Handler.DeleteMessagePerm | src/gmail_handler.py:40-46 | Stated about `Handler.Guarded` on the `delete` endpoint. `msg_id=None` makes no call. Otherwise exactly one `delete` call is made, and the response is returned exactly when the call does not fail. |
| Headers.LowerChar | src/gmail_handler.py:158 | Upper-case ASCII letters map to their lower-case letter; every other character stays the same. |
| Headers.Lower | src/gmail_handler.py:158 | Lowers the string character by character and keeps its length. |
| Headers.LowerIdempotent | src/gmail_handler.py:158 | Lowering twice is lowering once. |
| Headers.NameMatchesIgnoresCase | src/gmail_handler.py:158 | The name match is symmetric and ignores the case of either side. |
| Headers.Split | src/gmail_handler.py:159 | `split(" ")` gives at least one field, and no field contains a space. |
| Headers.JoinSplit | src/gmail_handler.py:159 | Joining the fields with single spaces gives back the value, so empty fields are kept. |
| Headers.LeadingRun | src/gmail_handler.py:163 | The end of a maximal run of the character starting at `from`. |
| Headers.TrailingRun | src/gmail_handler.py:164 | The start of a maximal run of the character ending at `to`. |
| Headers.LStrip | src/gmail_handler.py:163 | `lstrip('<')` is a suffix whose removed part is all `<` and which does not start with `<`. |
| Headers.RStrip | src/gmail_handler.py:164 | `rstrip('>')` is a prefix whose removed part is all `>` and which does not end with `>`. |
| Headers.Cleaned | src/gmail_handler.py:162-166 | A field without `<` is returned verbatim. Otherwise the result is the slice `field[a..b]`: everything before `a` is `<` and `field[a]` is not, everything from `b` on is `>` and `field[b-1]` is not. |
| Headers.CleanedKeepsAt | src/gmail_handler.py:161-165 | Stripping never removes the `@`. |
| Headers.FirstWithAt | src/gmail_handler.py:160-161 | The first field at or after `from` that contains `@`. |
| Headers.FirstAddress | src/gmail_handler.py:160-166 | None exactly when no field has `@`. Otherwise it is the cleaned form of the first field with `@`, and it contains `@`. |
| Headers.FirstOffering | src/gmail_handler.py:157-158 | The first header at or after `from` whose name matches and whose value has an `@` field (`Headers.Offered` returns an address). |
| Headers.GetSender | src/gmail_handler.py:157-166 | None exactly when no header offers an address. Otherwise it is the address from the first header that does, and it contains `@`. A matching header without `@` is passed over. |
| Headers.GetSenderFirst | gmail-delete.py:188-199 | The first header offering an address fixes the result, whatever matched before it without `@`. |
| Headers.GetSenderPrefix | gmail-delete.py:188-199 | Headers after the first one offering an address do not change the result. |
| BulkDelete.Pieces | src/gmail_handler.py:187-188 | One buffer extension per message, in order. |
| BulkDelete.SendBatches | src/gmail_handler.py:186-194 | The loop sends exactly the bodies of the flush rule `BulkDelete.Flushes`: one whenever the buffer length equals 1000, then the buffer is emptied, and one trailing body if and only if the buffer is non-empty. |
| BulkDelete.DeleteMessagesPerm | src/gmail_handler.py:172-194 | As written, extending by the id's characters: the flush-rule bodies. Together they are exactly the characters extended, in order. All but the last hold 1000. `msgs=None` sends nothing. |
| BulkDelete.Ids | src/gmail_handler.py:187-188 | The message ids, in order. |
| BulkDelete.DeleteMessagesPermById | src/gmail_handler.py:186-194 | Extending by one id per message: the bodies together are the ids in order. Each holds 1 to 1000 ids, all but the last exactly 1000, and there are `ceil(N / 1000)` calls. |
| BulkDelete.FlattenAppend | src/gmail_handler.py:186-194 | Concatenating the bodies distributes over appending bodies. |
| BulkDelete.FlushesFlatten | src/gmail_handler.py:186-194 | Nothing is lost or reordered: the bodies sent are the buffer plus everything extended. |
| BulkDelete.FlushesFull | src/gmail_handler.py:189-194 | Every body is non-empty, and every body but the last holds exactly 1000 entries. |
| BulkDelete.FlushesNoneIff | src/gmail_handler.py:183-194 | No `batchDelete` is sent if and only if nothing was extended into the buffer (an empty or None input). |
| BulkDelete.FlushesUnits | src/gmail_handler.py:189-191 | With one entry per extension no body exceeds 1000, and the number of bodies is the ceiling of the entry count over 1000. |
| BulkDelete.FlattenUnits | src/gmail_handler.py:187-188 | One-id pieces concatenate to the id list. |
| BulkDelete.FlushesOvershoot | src/gmail_handler.py:188-191 | Pieces of one width that does not divide 1000 step the buffer past 1000 without equalling it. Nothing is sent mid-stream, and everything goes out in one trailing body. |
| BulkDelete.MultipleDivides | src/gmail_handler.py:189 | A buffer that reaches 1000 in equal steps has a step width dividing 1000. |
| BulkDelete.OvershootExample | src/gmail_handler.py:188-194 | 63 pieces of 16 entries are sent as a single body of 1008 entries. |
| BulkDelete.FlattenWidth | src/gmail_handler.py:188 | Equal-width pieces concatenate to width times count entries. |
| BulkDelete.DeleteMessagesPermOvershoots | src/gmail_handler.py:188-194 | The handler as written, on 63 messages with 16-character ids, sends one `batchDelete`, at the end, with 1008 entries. |
| GmailDelete.EagerOutcome | gmail-delete.py:105-121 | KeyError exactly when some later page lacks `messages`. None exactly when none does and the walk ended in an HttpError. Otherwise the in-order messages of every page. |
| GmailDelete.EagerAgreesWithGenerator | gmail-delete.py:139-154 | The eager and lazy query listings raise KeyError on the same walks. They give the same messages when the eager one returns a list. Where the eager one returns None, the generator had yielded every message before the error. |
| GmailDelete.ListMessages | gmail-delete.py:105-121 | The loop's result is the eager outcome of the walk. The calls are chained by tokens, and there are exactly as many as a traversal needs. |
| GmailDelete.ListMessagesWithLabels | gmail-delete.py:91-121 | The label listing: the eager outcome, with chained calls on the label filter. |
| GmailDelete.ListMessagesMatchingQuery | gmail-delete.py:124-154 | The query listing: the eager outcome, with chained calls on the query filter. |
| GmailDelete.Senders | gmail-delete.py:218-221 | The sender of each listed message, in order. |
| GmailDelete.SumUpdate | gmail-delete.py:222-225 | Changing one key's count changes the sum by the same amount; a key outside the key list does not change it. |
| GmailDelete.HistogramKeys | gmail-delete.py:215-225 | The dict holds exactly the senders seen, and its key order lists exactly its keys. |
| GmailDelete.HistogramKeysUnique | gmail-delete.py:215-225 | Each key appears once in the key order. |
| GmailDelete.HistogramCounts | gmail-delete.py:215-225 | Each count is the number of occurrences of its sender, with None counted as a key. |
| GmailDelete.HistogramTotal | gmail-delete.py:215-225 | The counts sum to the number of senders seen. |
| GmailDelete.AppendNew | gmail-delete.py:224-225 | A key inserted for the first time keeps the key order free of repeats. |
| GmailDelete.SumInsert | gmail-delete.py:224-225 | Inserting a new key with count 1 adds one to the sum. |
| GmailDelete.CountSenders | gmail-delete.py:215-225 | The loop's dict and key order equal `GmailDelete.HistogramOf` of the senders. After the loop, only senders that occur are keys, once each. Each count is the number of occurrences, and the counts sum to the number of messages. |
| GmailDelete.GetStatisticForUser | gmail-delete.py:202-225 | The histogram exists exactly when the listing returned a list. It then counts the senders of exactly the listed messages. |
| GmailDelete.CountBucket | gmail-delete.py:244-245 | Lists one bucket's query and, if a list came back, stores its length under the bucket's key after the earlier entries. |
| GmailDelete.GetStatisticForMailSize | gmail-delete.py:243-255 | Six entries in the fixed key order, each being the length of the list returned for `'label:' + label_choice + <size filter>`. Otherwise it stops at the first bucket whose listing gave no list. |
| GmailDelete.BucketKeysDistinct | gmail-delete.py:243-255 | The six bucket keys are distinct, so the ordered dict ends with six entries. |
| GmailDelete.ChooseLabel | gmail-delete.py:291-299 | A number is accepted exactly when `1 <= label_choice <= len(labels)`, and then `labels[label_choice-1]` is the label used. |
| GmailDelete.MenuNumberSelects | gmail-delete.py:288-299 | The number printed before a label selects exactly that label. |
| GmailDelete.ChoiceWasPrinted | gmail-delete.py:288-299 | Every accepted number is one the menu printed. |

## Left out

- OAuth, credential storage and service construction (`src/google_client.py`, gmail-delete.py:31-71). These are file I/O and library calls.
- The Gmail API itself: it is the abstract provider. `trash`/`delete` are an abstract service, and a message's headers are the parameter `headersOf`. `get_message`/`GetMessage` returning None after an HttpError (and `GetSender` then failing on None) is not modelled.
- The `input()` menus of gmail-delete.py:262-345 and all of `src/gmail_deleter.py`. This is UI glue. The label-number check is modelled as `ChooseLabel`. A `ValueError` from `int(input())` is not modelled.
- `src/gmail_deleter.py` passes the query or label id positionally into `user_id` of the listing generators (lines 39, 53, 57, 60, 63). It also passes the generator into `user_id` of `delete_messages_perm` (lines 40, 54, 58, 61, 64), so `msgs` stays None. As a result none of that menu's options deletes anything. This wiring is not modelled.
- matplotlib charting (gmail-delete.py:227-230, 257-260) and every `print`.
- The thin wrappers. `get_message`, `GetMessage` and the `DeleteMessage`/`DeleteMessagePerm` of gmail-delete.py are one API call and a caught HttpError. `get_labels` (src/gmail_handler.py:58-60) catches nothing: it is one API call whose `labels` entry defaults to `[]`.
- `user_id` is passed through unchanged and plays no part.
- An endless `nextPageToken` chain. On such a chain the source loops forever only in three cases: a full drain of the label generator; a full drain of the query generator whose later pages all carry `messages`; an eager listing whose later pages all carry `messages`. It still ends when a consumer stops pulling from a generator. It also ends when the query generator (src/gmail_handler.py:123) or an eager listing (gmail-delete.py:117, 150) hits a later page without `messages` and raises KeyError, even if that page carries a token. The model requires the provider's listing for a filter to be finite (a walk, `Paging.IsWalk`) in `MessagePager.WithLabel`, `MessagePager.MatchingQuery`, `GmailDelete.ListMessages` and `GmailDelete.BucketWalks`. So it represents none of the runs on an endless chain, not even those ending runs (an early stop, a KeyError).
- Concurrent mutation of the mailbox during paging, which is outside the program.
- An HttpError raised by `batchDelete` ends `delete_messages_perm` with the exception. The model treats every `batchDelete` as returning and records the bodies sent.
- Headers.LowerChar: lowers ASCII letters only; Python's `str.lower()` also lowers non-ASCII letters. `Headers.Lower`, `Headers.NameMatches` and the header match in `Headers.GetSender` inherit this. `str.lower()` can also change a string's length (`'İ'` lowers to two characters), while `Headers.Lower` keeps it.
- GmailDelete.GetStatisticForUser: `decision` is passed to `ListMessagesWithLabels` as a single label id. A listing that returns None aborts, as Python's iteration over None does, and the chart is not drawn.
- GmailDelete.GetStatisticForMailSize: `len(None)` on a listing that returned None, and a KeyError, both abort the rest. The model does not tell a TypeError from a propagated KeyError beyond the recorded cause.
- The generators catch an HttpError and print it, so the caller sees an ordinary end of the sequence rather than an error. The model follows the code, in which the sequence simply stops (`Step.Exhausted`).

## Findings

| source | as written | input that shows it | evidently intended | confidence | as-written member | corrected member |
|---|---|---|---|---|---|---|
| src/gmail_handler.py:188 | `msg_ids.extend(msg['id'])` adds the id's characters to the buffer, so its length grows by the id length and the `== BATCH_SIZE` test can be stepped over | 63 messages whose ids have 16 characters: no mid-stream `batchDelete`, then one trailing call with a 1008-entry body of single characters | `msg_ids.append(msg['id'])`: one id per message, at most 1000 ids per call, `ceil(N/1000)` calls | not executed | BulkDelete.DeleteMessagesPermOvershoots | BulkDelete.DeleteMessagesPermById |
