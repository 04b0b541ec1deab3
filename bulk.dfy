/**
 * `GmailBulkHandler.delete_messages_perm`: a rolling buffer that is extended once per
 * message, sent as one `batchDelete` body whenever its length is exactly
 * `BATCH_SIZE` and then emptied, and sent once more at the end if anything is left.
 *
 * The loop is written once, over the piece each message extends the buffer with.
 * The handler extends by `msg['id']`, a string, so the buffer gains the id's
 * characters (`DeleteMessagesPerm`); extending by `[msg['id']]` gains the id itself
 * (`DeleteMessagesPermById`).
 */
module BulkDelete {
  import opened Common
  import opened Paging

  const BATCH_SIZE: nat := 1000

  function Flatten<T>(pieces: seq<seq<T>>): seq<T> {
    if |pieces| == 0 then [] else pieces[0] + Flatten(pieces[1..])
  }

  /** The pieces the messages extend the buffer with, in order. */
  function Pieces<T>(msgs: seq<Message>, piece: Message -> seq<T>): (ps: seq<seq<T>>)
    ensures |ps| == |msgs|
    ensures forall i :: 0 <= i < |msgs| ==> ps[i] == piece(msgs[i])
  {
    if |msgs| == 0 then [] else [piece(msgs[0])] + Pieces(msgs[1..], piece)
  }

  /**
   * The `batchDelete` bodies sent when the buffer holds `buf` and `pieces` are still
   * to be extended into it: a body is sent exactly when an extension leaves the
   * buffer at `BATCH_SIZE`, and a last one when the input ends with a non-empty buffer.
   */
  function Flushes<T>(buf: seq<T>, pieces: seq<seq<T>>): seq<seq<T>>
    decreases |pieces|
  {
    if |pieces| == 0 then (if |buf| == 0 then [] else [buf])
    else
      var b := buf + pieces[0];
      if |b| == BATCH_SIZE then [b] + Flushes([], pieces[1..]) else Flushes(b, pieces[1..])
  }

  /**
   * The rolling-buffer loop: extend by each message's piece, flush at exactly
   * `BATCH_SIZE`, flush the rest at the end. Returns the bodies sent, in order.
   */
  method SendBatches<T>(msgs: seq<Message>, piece: Message -> seq<T>) returns (calls: seq<seq<T>>)
    ensures calls == Flushes([], Pieces(msgs, piece))
  {
    ghost var pieces := Pieces(msgs, piece);
    calls := [];
    var buffer: seq<T> := [];
    for i := 0 to |msgs|
      invariant calls + Flushes(buffer, pieces[i..]) == Flushes([], pieces)
    {
      assert pieces[i..][1..] == pieces[i + 1..];
      buffer := buffer + piece(msgs[i]);
      if |buffer| == BATCH_SIZE {
        calls := calls + [buffer];
        buffer := [];
      }
    }
    if |buffer| > 0 {
      calls := calls + [buffer];
    }
  }

  function IdChars(m: Message): seq<char> {
    m.id
  }

  function WholeId(m: Message): seq<MessageId> {
    [m.id]
  }

  /** `delete_messages_perm(msgs=...)` as written: `msg_ids.extend(msg['id'])` adds characters. */
  method DeleteMessagesPerm(msgs: Option<seq<Message>>) returns (calls: seq<seq<char>>)
    ensures calls == Flushes([], Pieces(msgs.GetOr([]), IdChars))
    ensures Flatten(calls) == Flatten(Pieces(msgs.GetOr([]), IdChars))
    ensures forall k :: 0 <= k < |calls| - 1 ==> |calls[k]| == BATCH_SIZE
    ensures msgs.None? ==> calls == []
  {
    calls := SendBatches(msgs.GetOr([]), IdChars);
    FlushesFlatten([], Pieces(msgs.GetOr([]), IdChars));
    FlushesFull([], Pieces(msgs.GetOr([]), IdChars));
  }

  /** The ids of the messages, in order. */
  function Ids(msgs: seq<Message>): (ids: seq<MessageId>)
    ensures |ids| == |msgs|
    ensures forall i :: 0 <= i < |msgs| ==> ids[i] == msgs[i].id
  {
    if |msgs| == 0 then [] else [msgs[0].id] + Ids(msgs[1..])
  }

  /**
   * `delete_messages_perm` with one id per extension: every body holds at most
   * `BATCH_SIZE` ids, all but the last exactly that many, the bodies together are the
   * ids in order, and there are `ceil(N / BATCH_SIZE)` of them.
   */
  method DeleteMessagesPermById(msgs: Option<seq<Message>>) returns (calls: seq<seq<MessageId>>)
    ensures Flatten(calls) == Ids(msgs.GetOr([]))
    ensures forall k :: 0 <= k < |calls| ==> 0 < |calls[k]| <= BATCH_SIZE
    ensures forall k :: 0 <= k < |calls| - 1 ==> |calls[k]| == BATCH_SIZE
    ensures |calls| == (|msgs.GetOr([])| + BATCH_SIZE - 1) / BATCH_SIZE
  {
    var ms := msgs.GetOr([]);
    calls := SendBatches(ms, WholeId);
    var pieces := Pieces(ms, WholeId);
    FlushesFlatten([], pieces);
    FlushesFull([], pieces);
    FlushesUnits([], pieces);
    FlattenUnits(ms, pieces);
  }

  // ---------------------------------------------------------------------------
  // Properties of the flush rule

  lemma {:induction false} FlattenAppend<T>(a: seq<seq<T>>, b: seq<seq<T>>)
    ensures Flatten(a + b) == Flatten(a) + Flatten(b)
  {
    if |a| > 0 {
      assert (a + b)[1..] == a[1..] + b;
      FlattenAppend(a[1..], b);
    } else {
      assert a + b == b;
    }
  }

  /** Nothing is lost or reordered: the bodies sent, concatenated, are all that was extended. */
  lemma {:induction false} FlushesFlatten<T>(buf: seq<T>, pieces: seq<seq<T>>)
    ensures Flatten(Flushes(buf, pieces)) == buf + Flatten(pieces)
    decreases |pieces|
  {
    if |pieces| == 0 {
      if |buf| == 0 { assert buf == []; }
    } else {
      var b := buf + pieces[0];
      if |b| == BATCH_SIZE {
        FlushesFlatten([], pieces[1..]);
        FlattenAppend([b], Flushes([], pieces[1..]));
        assert [b][1..] == [];
      } else {
        FlushesFlatten(b, pieces[1..]);
      }
    }
  }

  /** Every body sent is non-empty, and every body but the last holds exactly `BATCH_SIZE`. */
  lemma {:induction false} FlushesFull<T>(buf: seq<T>, pieces: seq<seq<T>>)
    ensures forall k :: 0 <= k < |Flushes(buf, pieces)| ==> |Flushes(buf, pieces)[k]| > 0
    ensures forall k :: 0 <= k < |Flushes(buf, pieces)| - 1 ==> |Flushes(buf, pieces)[k]| == BATCH_SIZE
    decreases |pieces|
  {
    if |pieces| > 0 {
      var b := buf + pieces[0];
      if |b| == BATCH_SIZE {
        FlushesFull([], pieces[1..]);
      } else {
        FlushesFull(b, pieces[1..]);
      }
    }
  }

  /** No body is sent at all exactly when nothing is extended into an empty buffer. */
  lemma FlushesNoneIff<T>(pieces: seq<seq<T>>)
    ensures Flushes([], pieces) == [] <==> Flatten(pieces) == []
  {
    FlushesFlatten([], pieces);
    FlushesFull([], pieces);
    if Flushes([], pieces) != [] {
      assert |Flushes([], pieces)[0]| > 0;
      assert Flatten(Flushes([], pieces)) == Flushes([], pieces)[0] + Flatten(Flushes([], pieces)[1..]);
    }
  }

  /** With one element per extension the buffer never passes `BATCH_SIZE`, and the count is the ceiling. */
  lemma {:induction false} FlushesUnits<T>(buf: seq<T>, pieces: seq<seq<T>>)
    requires |buf| < BATCH_SIZE
    requires forall i :: 0 <= i < |pieces| ==> |pieces[i]| == 1
    ensures forall k :: 0 <= k < |Flushes(buf, pieces)| ==> |Flushes(buf, pieces)[k]| <= BATCH_SIZE
    ensures |Flushes(buf, pieces)| == (|buf| + |pieces| + BATCH_SIZE - 1) / BATCH_SIZE
    decreases |pieces|
  {
    if |pieces| > 0 {
      var b := buf + pieces[0];
      if |b| == BATCH_SIZE {
        FlushesUnits([], pieces[1..]);
      } else {
        FlushesUnits(b, pieces[1..]);
      }
    }
  }

  lemma {:induction false} FlattenUnits(msgs: seq<Message>, pieces: seq<seq<MessageId>>)
    requires pieces == Pieces(msgs, WholeId)
    ensures Flatten(pieces) == Ids(msgs)
    decreases |msgs|
  {
    if |msgs| > 0 {
      FlattenUnits(msgs[1..], Pieces(msgs[1..], WholeId));
    }
  }

  /**
   * With pieces all of one width that does not divide `BATCH_SIZE`, the buffer length
   * steps over `BATCH_SIZE` without ever equalling it: no body is sent mid-stream and
   * everything goes out in one trailing body.
   */
  lemma {:induction false} FlushesOvershoot<T>(buf: seq<T>, pieces: seq<seq<T>>, width: nat, count: nat)
    requires width > 0 && BATCH_SIZE % width != 0 && |buf| == count * width
    requires forall i :: 0 <= i < |pieces| ==> |pieces[i]| == width
    ensures |buf| + |pieces| > 0 ==> Flushes(buf, pieces) == [buf + Flatten(pieces)]
    ensures |buf| + |pieces| == 0 ==> Flushes(buf, pieces) == []
    decreases |pieces|
  {
    if |pieces| > 0 {
      var b := buf + pieces[0];
      assert |b| == (count + 1) * width;
      if |b| == BATCH_SIZE {
        MultipleDivides(count + 1, width);
        assert false;
      }
      FlushesOvershoot(b, pieces[1..], width, count + 1);
      assert b + Flatten(pieces[1..]) == buf + Flatten(pieces);
    } else if |buf| == 0 {
      assert buf == [];
    } else {
      assert buf + Flatten(pieces) == buf;
    }
  }

  lemma MultipleDivides(k: nat, width: nat)
    requires width > 0 && k * width == BATCH_SIZE
    ensures BATCH_SIZE % width == 0
  {
    assert BATCH_SIZE == width * k + 0;
  }

  /** 63 pieces of 16 characters: the single body sent holds 1008 > `BATCH_SIZE` entries. */
  lemma OvershootExample<T>(pieces: seq<seq<T>>)
    requires |pieces| == 63
    requires forall i :: 0 <= i < |pieces| ==> |pieces[i]| == 16
    ensures |Flushes([], pieces)| == 1
    ensures |Flushes([], pieces)[0]| == 1008 > BATCH_SIZE
  {
    FlushesOvershoot([], pieces, 16, 0);
    FlattenWidth(pieces, 16);
  }

  lemma {:induction false} FlattenWidth<T>(pieces: seq<seq<T>>, width: nat)
    requires forall i :: 0 <= i < |pieces| ==> |pieces[i]| == width
    ensures |Flatten(pieces)| == |pieces| * width
  {
    if |pieces| > 0 {
      FlattenWidth(pieces[1..], width);
    }
  }

  /**
   * The as-written handler on 63 messages whose ids have 16 characters (the length
   * of a Gmail message id): a single `batchDelete`, at the end, whose body holds
   * 1008 characters.
   */
  lemma DeleteMessagesPermOvershoots(msgs: seq<Message>)
    requires |msgs| == 63
    requires forall i :: 0 <= i < |msgs| ==> |msgs[i].id| == 16
    ensures |Flushes([], Pieces(msgs, IdChars))| == 1
    ensures |Flushes([], Pieces(msgs, IdChars))[0]| == 1008
  {
    OvershootExample(Pieces(msgs, IdChars));
  }
}
