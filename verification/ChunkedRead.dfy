/** The bytes of an export: inline, or read from the engine's staging area a chunk at a time and then released. */
module ChunkedRead {
  import opened Wrappers

  newtype byte = b: int | 0 <= b < 256

  type Bytes = seq<byte>

  const CHUNK_BYTES: nat := 512 * 1024

  /** A text field that should hold encoded bytes. */
  datatype Data = Missing | Undecodable(why: string) | Decoded(bytes: Bytes)

  /** What the engine answers to a read; no `eof` is an `eof` that is false. */
  datatype Reply = Failed(why: string) | Chunk(data: Data, eof: bool)

  datatype Error = Refused(why: string) | Unreadable(why: string) | NoData | StoppedSending

  datatype Ask = Ask(offset: nat, length: nat)

  /** A read in progress: what is gathered, what was asked and released so far, and what was delivered, if anything. */
  datatype Read = Read(offset: nat, bytes: Bytes, asked: seq<Ask>, released: nat, outcome: Option<Result<Bytes, Error>>)

  /** `ok: false` with its message, bytes in the answer itself, or a name to read them by. */
  datatype Artifact = Artifact(refused: Option<string>, inline: Data, blob: Option<string>)

  function Begin(artifact: Artifact): Read {
    if artifact.refused.Some? then Read(0, [], [], 0, Some(Err(Refused(artifact.refused.value))))
    else
      match artifact.inline
      case Decoded(bytes) => Read(0, [], [], 0, Some(Ok(bytes)))
      case Undecodable(why) => Read(0, [], [], 0, Some(Err(Unreadable(why))))
      case Missing =>
        if artifact.blob.Some? then Asking(0, [], []) else Read(0, [], [], 0, Some(Err(NoData)))
  }

  /** Ask for the bytes from `offset` on. */
  function Asking(offset: nat, bytes: Bytes, asked: seq<Ask>): Read {
    Read(offset, bytes, asked + [Ask(offset, CHUNK_BYTES)], 0, None)
  }

  /** Let the staged bytes go, and deliver. */
  function Deliver(read: Read, outcome: Result<Bytes, Error>): Read {
    read.(released := read.released + 1, outcome := Some(outcome))
  }

  /** The answer to the one read that is outstanding. */
  function Next(read: Read, reply: Reply): Read
    requires read.outcome.None?
  {
    match reply
    case Failed(why) => Deliver(read, Err(Refused(why)))
    case Chunk(data, eof) =>
      if !data.Decoded? then Deliver(read, Err(NoData))
      else if data.bytes == [] && !eof then Deliver(read, Err(StoppedSending))
      else
        var bytes := read.bytes + data.bytes;
        if eof then Deliver(read.(bytes := bytes), Ok(bytes))
        else Asking(read.offset + |data.bytes|, bytes, read.asked)
  }

  // ---- Runs ----

  /** Whether these are the answers to a read, one after another: none comes once it has delivered. */
  predicate CanRun(read: Read, replies: seq<Reply>)
    decreases |replies|
  {
    replies == [] || (read.outcome.None? && CanRun(Next(read, replies[0]), replies[1..]))
  }

  function Run(read: Read, replies: seq<Reply>): Read
    requires CanRun(read, replies)
    decreases |replies|
  {
    if replies == [] then read else Run(Next(read, replies[0]), replies[1..])
  }

  /** A read has begun, and stands as its code keeps it. */
  ghost predicate Kept(read: Read) {
    && read.asked != []
    && (read.outcome.None? ==>
          && read.offset == |read.bytes| && read.released == 0
          && read.asked[|read.asked| - 1] == Ask(read.offset, CHUNK_BYTES))
    && (read.outcome.Some? ==> read.released == 1)
  }

  lemma {:induction false} KeptOverRuns(read: Read, replies: seq<Reply>)
    requires Kept(read) && CanRun(read, replies)
    ensures Kept(Run(read, replies))
    decreases |replies|
  {
    if replies != [] {
      KeptOverRuns(Next(read, replies[0]), replies[1..]);
    }
  }

  /** Whatever the engine answers, what is staged is released once when the read delivers, bytes or an error, and not
      before; nothing is released when nothing was read; and each read asks for what follows the bytes gathered. */
  lemma ReleasedOnceOnEveryExit(artifact: Artifact, replies: seq<Reply>)
    requires CanRun(Begin(artifact), replies)
    ensures var read := Run(Begin(artifact), replies);
            && (read.asked == [] ==> read.released == 0 && read.outcome.Some? && replies == [])
            && (read.asked != [] ==> read.released == if read.outcome.Some? then 1 else 0)
            && (read.outcome.None? ==>
                  read.offset == |read.bytes| && read.asked[|read.asked| - 1] == Ask(|read.bytes|, CHUNK_BYTES))
  {
    var read := Begin(artifact);
    if read.outcome.None? {
      KeptOverRuns(read, replies);
    }
  }

  // ---- Progress, whatever the engine answers ----

  /** Every answer that lets the read go on brings bytes: a read that goes on has gathered at least as many as it has
      had answers. */
  lemma {:induction false} EachAnswerBringsBytes(read: Read, replies: seq<Reply>)
    requires CanRun(read, replies) && Run(read, replies).outcome.None?
    ensures |Run(read, replies).bytes| >= |read.bytes| + |replies|
    decreases |replies|
  {
    if replies != [] {
      EachAnswerBringsBytes(Next(read, replies[0]), replies[1..]);
    }
  }

  /** The bytes of the answers, in order. */
  function Came(replies: seq<Reply>): Bytes {
    if replies == [] then []
    else (if replies[0].Chunk? && replies[0].data.Decoded? then replies[0].data.bytes else []) + Came(replies[1..])
  }

  /** An answer that ends a read with an error. */
  predicate Fails(reply: Reply) {
    reply.Failed? || !reply.data.Decoded? || (reply.data.bytes == [] && !reply.eof)
  }

  /** A read delivers the bytes of all its answers, in order, exactly when its last answer is an `eof` that does not
      fail; it delivers an error exactly when its last answer fails. */
  lemma {:induction false} WhatIsDelivered(read: Read, replies: seq<Reply>)
    requires read.outcome.None? && replies != [] && CanRun(read, replies)
    ensures var outcome, last := Run(read, replies).outcome, replies[|replies| - 1];
            && (outcome == Some(Ok(read.bytes + Came(replies))) <==> !Fails(last) && last.eof)
            && ((outcome.Some? && outcome.value.Err?) <==> Fails(last))
            && (outcome.None? <==> !Fails(last) && !last.eof)
    decreases |replies|
  {
    if |replies| > 1 {
      WhatIsDelivered(Next(read, replies[0]), replies[1..]);
      assert replies[1..][|replies| - 2] == replies[|replies| - 1];
      GoingOn(read, replies);
    } else {
      assert replies == [replies[0]];
      OneAnswer(read, replies[0]);
    }
  }

  lemma OneAnswer(read: Read, reply: Reply)
    requires read.outcome.None?
    ensures var outcome := Next(read, reply).outcome;
            && (outcome == Some(Ok(read.bytes + Came([reply]))) <==> !Fails(reply) && reply.eof)
            && ((outcome.Some? && outcome.value.Err?) <==> Fails(reply))
            && (outcome.None? <==> !Fails(reply) && !reply.eof)
    ensures CanRun(read, [reply]) && Run(read, [reply]) == Next(read, reply)
  {
    assert [reply][1..] == [] && Run(Next(read, reply), []) == Next(read, reply);
    assert !Fails(reply) ==> Came([reply]) == reply.data.bytes;
  }

  /** A read that goes on has gathered what came. */
  lemma GoingOn(read: Read, replies: seq<Reply>)
    requires read.outcome.None? && |replies| > 1 && CanRun(read, replies)
    ensures Next(read, replies[0]).outcome.None?
    ensures Next(read, replies[0]).bytes + Came(replies[1..]) == read.bytes + Came(replies)
  {
    assert CanRun(Next(read, replies[0]), replies[1..]);
  }

  // ---- An engine that serves a fixed blob ----

  /** A slice of `blob` from `offset` on, of any length, empty only at the end; `eof` only when it reaches the end. */
  ghost predicate Serves(blob: Bytes, offset: nat, reply: Reply) {
    && reply.Chunk? && reply.data.Decoded?
    && offset + |reply.data.bytes| <= |blob|
    && reply.data.bytes == blob[offset..offset + |reply.data.bytes|]
    && (reply.eof ==> offset + |reply.data.bytes| == |blob|)
    && (reply.data.bytes == [] ==> reply.eof)
  }

  /** Each answer serves what was asked for. */
  ghost predicate AllServe(blob: Bytes, read: Read, replies: seq<Reply>)
    requires CanRun(read, replies)
    decreases |replies|
  {
    replies == [] || (Serves(blob, read.offset, replies[0]) && AllServe(blob, Next(read, replies[0]), replies[1..]))
  }

  ghost predicate Gathers(blob: Bytes, read: Read) {
    if read.outcome.None? then
      |read.bytes| <= |blob| && read.offset == |read.bytes| && read.bytes == blob[..|read.bytes|]
    else read.outcome == Some(Ok(blob))
  }

  lemma GathersNext(blob: Bytes, read: Read, reply: Reply)
    requires Gathers(blob, read) && read.outcome.None? && Serves(blob, read.offset, reply)
    ensures Gathers(blob, Next(read, reply))
  {
    var chunk := reply.data.bytes;
    assert read.bytes + chunk == blob[..read.offset + |chunk|];
    assert blob[..|blob|] == blob;
  }

  lemma {:induction false} GathersOverRuns(blob: Bytes, read: Read, replies: seq<Reply>)
    requires Gathers(blob, read) && CanRun(read, replies) && AllServe(blob, read, replies)
    ensures Gathers(blob, Run(read, replies))
    decreases |replies|
  {
    if replies != [] {
      GathersNext(blob, read, replies[0]);
      GathersOverRuns(blob, Next(read, replies[0]), replies[1..]);
    }
  }

  /** What is delivered is exactly the blob, and it is delivered: after more answers than the blob has bytes the read
      is over, and until then it holds the first part of the blob. */
  lemma TheBlobIsDelivered(artifact: Artifact, blob: Bytes, replies: seq<Reply>)
    requires artifact.refused.None? && artifact.inline.Missing? && artifact.blob.Some?
    requires CanRun(Begin(artifact), replies) && AllServe(blob, Begin(artifact), replies)
    ensures var read := Run(Begin(artifact), replies);
            && |replies| <= |blob| + 1
            && (read.outcome.Some? ==> read.outcome == Some(Ok(blob)))
            && (read.outcome.None? ==> |replies| <= |read.bytes| <= |blob| && read.bytes == blob[..|read.bytes|])
  {
    GathersOverRuns(blob, Begin(artifact), replies);
    if Run(Begin(artifact), replies).outcome.None? {
      EachAnswerBringsBytes(Begin(artifact), replies);
    } else {
      AllButLast(blob, Begin(artifact), replies);
    }
  }

  /** Before its last answer a read that has delivered had not. */
  lemma {:induction false} AllButLast(blob: Bytes, read: Read, replies: seq<Reply>)
    requires CanRun(read, replies) && AllServe(blob, read, replies) && Gathers(blob, read)
    requires read.outcome.None?
    ensures |replies| <= |blob| - |read.bytes| + 1
    decreases |replies|
  {
    if replies != [] {
      var after := Next(read, replies[0]);
      GathersNext(blob, read, replies[0]);
      if after.outcome.None? {
        AllButLast(blob, after, replies[1..]);
      }
    }
  }

  // ---- An engine that serves what it is asked for ----

  /** As many bytes as asked for, or all that are left; and `eof` exactly when none are left after them. */
  function FullReply(blob: Bytes, ask: Ask): Reply
    requires ask.offset <= |blob|
  {
    var end := if ask.offset + ask.length < |blob| then ask.offset + ask.length else |blob|;
    Chunk(Decoded(blob[ask.offset..end]), end == |blob|)
  }

  /** All the answers of such an engine, to a read that has come to `offset`. */
  function FullReplies(blob: Bytes, offset: nat): seq<Reply>
    requires offset <= |blob|
    decreases |blob| - offset
  {
    var reply := FullReply(blob, Ask(offset, CHUNK_BYTES));
    [reply] + if reply.eof then [] else FullReplies(blob, offset + CHUNK_BYTES)
  }

  lemma {:induction false} FullCount(blob: Bytes, offset: nat)
    requires offset <= |blob|
    ensures var n := |FullReplies(blob, offset)|;
            && |blob| - offset <= n * CHUNK_BYTES
            && ((n - 1) * CHUNK_BYTES < |blob| - offset || offset == |blob|)
            && (offset == |blob| ==> n == 1)
    decreases |blob| - offset
  {
    if !FullReply(blob, Ask(offset, CHUNK_BYTES)).eof {
      FullCount(blob, offset + CHUNK_BYTES);
    }
  }

  lemma {:induction false} FullRun(blob: Bytes, read: Read)
    requires read.outcome.None? && Gathers(blob, read)
    ensures CanRun(read, FullReplies(blob, read.offset))
    ensures Run(read, FullReplies(blob, read.offset)).outcome == Some(Ok(blob))
    decreases |blob| - read.offset
  {
    var replies := FullReplies(blob, read.offset);
    var reply := replies[0];
    GathersNext(blob, read, reply);
    var after := Next(read, reply);
    if reply.eof {
      assert replies[1..] == [];
    } else {
      assert replies[1..] == FullReplies(blob, after.offset);
      FullRun(blob, after);
    }
  }

  /** Such an engine delivers every blob, in one answer for each chunk begun, and in one when there are no bytes. */
  lemma EveryBlobIsDelivered(artifact: Artifact, blob: Bytes)
    requires artifact.refused.None? && artifact.inline.Missing? && artifact.blob.Some?
    ensures var replies := FullReplies(blob, 0);
            && CanRun(Begin(artifact), replies) && Run(Begin(artifact), replies).outcome == Some(Ok(blob))
            && |replies| == if blob == [] then 1 else (|blob| + CHUNK_BYTES - 1) / CHUNK_BYTES
  {
    FullRun(blob, Begin(artifact));
    FullCount(blob, 0);
  }

  // ---- What is asked, and what an error tells ----

  /** What an artifact comes to at once, and what it asks for else. */
  lemma HowItBegins(refused: Option<string>, inline: Data, blob: Option<string>)
    ensures var read := Begin(Artifact(refused, inline, blob));
            if refused.None? && inline == Missing && blob.Some? then
              read.outcome == None && read.asked == [Ask(0, 524_288)] && read.bytes == []
            else
              read.asked == [] && read.released == 0 && read.outcome == Some(
                match refused
                case Some(why) => Err(Refused(why))
                case None =>
                  match inline
                  case Decoded(bytes) => Ok(bytes)
                  case Undecodable(why) => Err(Unreadable(why))
                  case Missing => Err(NoData))
  {
  }

  /** The error a read ends with is that of its last answer. */
  lemma {:induction false} WhichError(read: Read, replies: seq<Reply>)
    requires read.outcome.None? && replies != [] && CanRun(read, replies)
    ensures var outcome, last := Run(read, replies).outcome, replies[|replies| - 1];
            match last
            case Failed(why) => outcome == Some(Err(Refused(why)))
            case Chunk(Decoded(bytes), eof) => bytes == [] && !eof ==> outcome == Some(Err(StoppedSending))
            case _ => outcome == Some(Err(NoData))
    decreases |replies|
  {
    if |replies| > 1 {
      WhichError(Next(read, replies[0]), replies[1..]);
    } else {
      assert Run(Next(read, replies[0]), []) == Next(read, replies[0]);
    }
  }

  lemma {:induction false} CameMore(replies: seq<Reply>, k: nat)
    requires replies != [] && 0 < k <= |replies|
    ensures Came(replies[..k]) == Came(replies[..1]) + Came(replies[1..][..k - 1])
  {
    assert replies[..k][0] == replies[0] && replies[..k][1..] == replies[1..][..k - 1];
    assert replies[..1][1..] == [];
  }

  /** What a read asks for after answers: what follows all the bytes that came, at every one that lets it go on. */
  lemma {:induction false} AsksFrom(read: Read, replies: seq<Reply>)
    requires read.outcome.None? && CanRun(read, replies)
    ensures var after, n := Run(read, replies), |read.asked|;
            && |after.asked| + (if after.outcome.Some? then 1 else 0) == n + |replies|
            && after.asked[..n] == read.asked
            && forall k | n <= k < |after.asked| ::
                 after.asked[k] == Ask(read.offset + |Came(replies[..k - n + 1])|, 524_288)
    decreases |replies|
  {
    if replies != [] {
      var next, more := Next(read, replies[0]), replies[1..];
      var n := |read.asked|;
      assert next.outcome.None? ==> next.offset == read.offset + |Came(replies[..1])| by {
        assert replies[..1][0] == replies[0] && replies[..1][1..] == [];
      }
      if next.outcome.None? {
        AsksFrom(next, more);
        var after := Run(next, more);
        assert after.asked[..n] == after.asked[..n + 1][..n] == read.asked;
        forall k | n <= k < |after.asked|
          ensures after.asked[k] == Ask(read.offset + |Came(replies[..k - n + 1])|, 524_288)
        {
          CameMore(replies, k - n + 1);
          if k == n {
            assert after.asked[n] == after.asked[..n + 1][n];
            assert more[..0] == [];
          }
        }
      }
    }
  }

  /** So each read of a blob asks for what follows the bytes of the answers before it. */
  lemma EachAsksForWhatFollows(artifact: Artifact, replies: seq<Reply>)
    requires artifact.refused.None? && artifact.inline.Missing? && artifact.blob.Some?
    requires CanRun(Begin(artifact), replies)
    ensures var asked := Run(Begin(artifact), replies).asked;
            && |asked| == (if Run(Begin(artifact), replies).outcome.Some? then |replies| else |replies| + 1)
            && forall k | 0 <= k < |asked| :: asked[k] == Ask(|Came(replies[..k])|, 524_288)
  {
    AsksFrom(Begin(artifact), replies);
    assert Came(replies[..0]) == [];
  }
}
