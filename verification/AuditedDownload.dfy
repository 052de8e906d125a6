/** A download that is announced in the audit log before it starts and recorded once when it ends, whatever the client does. */
module AuditedDownload {
  import opened Wrappers

  newtype Byte = x: int | 0 <= x < 256

  datatype Outcome = Completed | Interrupted

  /** Audit events of a disclosure; the outcome names the initiated event. */
  datatype Event = Initiated(id: nat) | Ended(outcome: Outcome, bytesSent: nat, initiatedId: nat)

  datatype Message = Start | Body(data: seq<Byte>, more: bool)

  /** How one guarded send ends: cancelled at the yield before it, disconnect seen there, the send raised (or was cancelled),
      a disconnect seen right after it returned, or nothing seen. */
  datatype SendResult = CancelledBefore | SeenBefore | Raised | SeenAfter | Passed

  // ── The messages of a response ────────────────────────────────────────

  function ChunkEnd(start: nat, size: nat, length: nat): nat {
    if start + size < length then start + size else length
  }

  /** `range(0, len(body), chunk_size) or (0,)`: one empty chunk for an empty body. */
  function Chunks(body: seq<Byte>, size: nat, start: nat): (messages: seq<Message>)
    requires size > 0 && start <= |body|
    ensures messages != []
    decreases |body| - start
  {
    if start + size >= |body| then [Body(body[start..], false)]
    else [Body(body[start..start + size], true)] + Chunks(body, size, start + size)
  }

  function Messages(body: seq<Byte>, size: nat): seq<Message>
    requires size > 0
  {
    [Start] + Chunks(body, size, 0)
  }

  function DataOf(m: Message): seq<Byte> {
    match m
    case Start => []
    case Body(data, _) => data
  }

  function BytesIn(messages: seq<Message>): nat {
    if messages == [] then 0 else BytesIn(messages[..|messages| - 1]) + |DataOf(messages[|messages| - 1])|
  }

  /** The messages carry consecutive pieces of the body, beginning at start. */
  ghost predicate Carry(messages: seq<Message>, body: seq<Byte>, start: nat)
    decreases |messages|
  {
    messages != [] ==>
      var data := DataOf(messages[0]);
      start + |data| <= |body| && body[start..start + |data|] == data && Carry(messages[1..], body, start + |data|)
  }

  lemma {:induction false} BytesConcat(a: seq<Message>, b: seq<Message>)
    ensures BytesIn(a + b) == BytesIn(a) + BytesIn(b)
  {
    if b == [] {
      assert a + b == a;
    } else {
      BytesConcat(a, b[..|b| - 1]);
      assert (a + b)[..|a + b| - 1] == a + b[..|b| - 1];
    }
  }

  lemma BytesFirst(m: Message, rest: seq<Message>)
    ensures BytesIn([m] + rest) == |DataOf(m)| + BytesIn(rest)
  {
    BytesConcat([m], rest);
    assert [m][..0] == [];
  }

  lemma CarryFirst(m: Message, rest: seq<Message>, body: seq<Byte>, start: nat, stop: nat)
    requires start <= stop <= |body| && DataOf(m) == body[start..stop] && Carry(rest, body, stop)
    ensures Carry([m] + rest, body, start)
  {
    assert ([m] + rest)[1..] == rest;
  }

  /** The chunks carry the body from start on, and no byte of it is left out. */
  ghost predicate WholeFrom(body: seq<Byte>, size: nat, start: nat)
    requires size > 0 && start <= |body|
  {
    Carry(Chunks(body, size, start), body, start) && BytesIn(Chunks(body, size, start)) == |body| - start
  }

  lemma FirstChunk(body: seq<Byte>, size: nat, start: nat)
    requires size > 0 && start + size < |body|
    requires WholeFrom(body, size, start + size)
    ensures WholeFrom(body, size, start)
  {
    var first, rest := Body(body[start..start + size], true), Chunks(body, size, start + size);
    ChunksUnfold(body, size, start);
    BytesFirst(first, rest);
    CarryFirst(first, rest, body, start, start + size);
  }

  lemma LastChunk(body: seq<Byte>, size: nat, start: nat)
    requires size > 0 && start <= |body| <= start + size
    ensures WholeFrom(body, size, start)
  {
    ChunksUnfold(body, size, start);
    BytesFirst(Body(body[start..], false), []);
    CarryFirst(Body(body[start..], false), [], body, start, |body|);
  }

  lemma {:induction false} ChunksAreBody(body: seq<Byte>, size: nat, start: nat)
    requires size > 0 && start <= |body|
    ensures WholeFrom(body, size, start)
    decreases |body| - start
  {
    if start + size >= |body| {
      LastChunk(body, size, start);
    } else {
      ChunksAreBody(body, size, start + size);
      FirstChunk(body, size, start);
    }
  }

  lemma ChunksUnfold(body: seq<Byte>, size: nat, start: nat)
    requires size > 0 && start <= |body|
    ensures start + size < |body| ==>
      Chunks(body, size, start) == [Body(body[start..start + size], true)] + Chunks(body, size, start + size)
    ensures start + size >= |body| ==> Chunks(body, size, start) == [Body(body[start..], false)] + []
  {
  }

  /** Only the last chunk says that no more follows, and none is longer than the chunk size. */
  lemma {:induction false} ChunkShape(body: seq<Byte>, size: nat, start: nat, i: nat)
    requires size > 0 && start <= |body| && i < |Chunks(body, size, start)|
    ensures var chunk := Chunks(body, size, start)[i];
      chunk.Body? && (chunk.more <==> i < |Chunks(body, size, start)| - 1) && |chunk.data| <= size
    decreases i
  {
    if i > 0 {
      ChunkShape(body, size, start + size, i - 1);
    }
  }

  /** Piece k from a place on: size bytes of it, or what is left, and whether any is left after it. */
  ghost predicate IsPiece(m: Message, body: seq<Byte>, size: nat, from: nat) {
    && from <= |body|
    && (from + size < |body| ==> m == Body(body[from..from + size], true))
    && (from + size >= |body| ==> m == Body(body[from..], false))
  }

  lemma {:induction false} ChunkAt(body: seq<Byte>, size: nat, start: nat, k: nat)
    requires size > 0 && start <= |body| && k < |Chunks(body, size, start)|
    ensures IsPiece(Chunks(body, size, start)[k], body, size, start + k * size)
    decreases k
  {
    if k > 0 {
      ChunkAt(body, size, start + size, k - 1);
      assert start + size + (k - 1) * size == start + k * size;
    }
  }

  lemma {:induction false} ChunkCount(body: seq<Byte>, size: nat, start: nat)
    requires size > 0 && start <= |body|
    ensures var n := |Chunks(body, size, start)|; start + n * size >= |body| && (n > 1 ==> start + (n - 1) * size < |body|)
    decreases |body| - start
  {
    var n := |Chunks(body, size, start)|;
    if start + size < |body| {
      ChunkCount(body, size, start + size);
      assert start + size + (n - 1) * size == start + n * size;
      assert n > 2 ==> start + size + (n - 2) * size == start + (n - 1) * size;
    }
  }

  /** The start message, then the body cut into pieces of the chunk size, as many as it takes and at least one. */
  ghost predicate IsResponse(messages: seq<Message>, body: seq<Byte>, size: nat) {
    && |messages| >= 2 && messages[0] == Start
    && (forall i :: 1 <= i < |messages| ==> IsPiece(messages[i], body, size, (i - 1) * size))
    && (|messages| - 1) * size >= |body| && (|messages| > 2 ==> (|messages| - 2) * size < |body|)
  }

  lemma MessagesAre(body: seq<Byte>, size: nat)
    requires size > 0
    ensures IsResponse(Messages(body, size), body, size)
  {
    var messages := Messages(body, size);
    ChunkCount(body, size, 0);
    forall i | 1 <= i < |messages|
      ensures IsPiece(messages[i], body, size, (i - 1) * size)
    {
      ChunkAt(body, size, 0, i - 1);
    }
  }

  lemma {:induction false} CarryPrefix(messages: seq<Message>, body: seq<Byte>, start: nat, n: nat)
    requires Carry(messages, body, start) && n <= |messages|
    ensures Carry(messages[..n], body, start)
    decreases n
  {
    if n > 0 {
      CarryPrefix(messages[1..], body, start + |DataOf(messages[0])|, n - 1);
      assert messages[..n][1..] == messages[1..][..n - 1];
    }
  }

  /** The messages, and any prefix of them, carry the body from its first byte. */
  lemma MessagesCarry(body: seq<Byte>, size: nat, n: nat)
    requires size > 0 && n <= |Messages(body, size)|
    ensures Carry(Messages(body, size)[..n], body, 0)
    ensures BytesIn(Messages(body, size)) == |body|
  {
    ChunksAreBody(body, size, 0);
    BytesFirst(Start, Chunks(body, size, 0));
    assert Messages(body, size)[1..] == Chunks(body, size, 0);
    CarryPrefix(Messages(body, size), body, 0, n);
  }

  // ── What a run delivers ───────────────────────────────────────────────

  type Env = nat -> SendResult

  /** passed is the number of leading messages whose sends returned with no disconnect seen. */
  ghost predicate IsPassed(env: Env, total: nat, passed: nat) {
    && passed <= total && (forall i :: 0 <= i < passed ==> env(i) == Passed)
    && (passed < total ==> env(passed) != Passed)
  }

  lemma PassedUnique(env: Env, total: nat, a: nat, b: nat)
    requires IsPassed(env, total, a) && IsPassed(env, total, b)
    ensures a == b
  {
  }

  /** The number of messages handed to the server: the passed ones, and one whose send raised or met a disconnect. */
  function Handed(env: Env, total: nat, passed: nat): nat {
    if passed < total && (env(passed) == Raised || env(passed) == SeenAfter) then passed + 1 else passed
  }

  /** Handed over are the passed messages, and the next one when its send raised or was followed by a disconnect. */
  ghost predicate IsHanded(env: Env, all: seq<Message>, passed: nat, handed: seq<Message>) {
    && handed <= all && passed <= |handed| <= passed + 1
    && (|handed| > passed <==> passed < |all| && env(passed) in {Raised, SeenAfter})
  }

  ghost predicate IsDelivery(all: seq<Message>, body: seq<Byte>, size: nat, env: Env, passed: nat, handed: seq<Message>) {
    IsResponse(all, body, size) && IsPassed(env, |all|, passed) && IsHanded(env, all, passed, handed)
  }

  lemma HandedIs(env: Env, all: seq<Message>, passed: nat)
    requires passed <= |all|
    ensures IsHanded(env, all, passed, all[..Handed(env, |all|, passed)])
  {
  }

  predicate StopsByRaising(env: Env, total: nat, passed: nat) {
    passed < total && (env(passed) == CancelledBefore || env(passed) == Raised)
  }

  /** What the outside sees, in the order in which it happens: an event made durable, or a message handed to the server. */
  datatype Action = Logged(event: Event) | Sent(message: Message)

  function Sends(messages: seq<Message>): (actions: seq<Action>)
    ensures |actions| == |messages|
    ensures forall i :: 0 <= i < |messages| ==> actions[i] == Sent(messages[i])
  {
    seq(|messages|, i requires 0 <= i < |messages| => Sent(messages[i]))
  }

  function Outcomes(outcome: Outcome, bytesSent: nat, initiatedId: nat, writeFails: bool): seq<Action> {
    if writeFails then [] else [Logged(Ended(outcome, bytesSent, initiatedId))]
  }

  class AuditLog {
    /** The audit events and, between them, what the downloads of this process hand to the server. */
    var trace: seq<Action>

    constructor ()
      ensures trace == []
    {
      trace := [];
    }

    /** Strict: the initiated event is durable, or the request is refused with 503 and nothing is recorded. */
    method BeginDisclosure(id: nat, writeFails: bool) returns (disclosure: Option<nat>)
      modifies this
      ensures disclosure == if writeFails then None else Some(id)
      ensures trace == old(trace) + if writeFails then [] else [Logged(Initiated(id))]
    {
      if writeFails {
        return None;
      }
      trace := trace + [Logged(Initiated(id))];
      disclosure := Some(id);
    }

    /** Not strict: a failed write is only logged elsewhere. */
    method RecordOutcome(outcome: Outcome, bytesSent: nat, initiatedId: nat, writeFails: bool)
      modifies this
      ensures trace == old(trace) + Outcomes(outcome, bytesSent, initiatedId, writeFails)
    {
      if !writeFails {
        trace := trace + [Logged(Ended(outcome, bytesSent, initiatedId))];
      }
    }
  }

  class Download {
    const body: seq<Byte>
    const chunkSize: nat
    const disclosure: nat
    const log: AuditLog

    constructor (content: seq<Byte>, size: nat, id: nat, audit: AuditLog)
      requires size > 0
      ensures body == content && chunkSize == size && disclosure == id && log == audit
    {
      body, chunkSize, disclosure, log := content, size, id, audit;
    }

    /** `send_unless_disconnected` for the next message. */
    method SendUnlessDisconnected(m: Message, result: SendResult) returns (ok: bool, raised: bool)
      modifies log
      ensures ok == (result == Passed) && raised == (result == CancelledBefore || result == Raised)
      ensures log.trace == old(log.trace) + if result == CancelledBefore || result == SeenBefore then [] else [Sent(m)]
    {
      if result == CancelledBefore {
        return false, true;
      }
      if result == SeenBefore {
        return false, false;
      }
      log.trace := log.trace + [Sent(m)];
      return result == Passed, result == Raised;
    }

    /** The sending loop, with its two counters. */
    method SendAll(content: seq<Byte>, env: Env) returns (sent: nat, delivered: bool, raised: bool, ghost passed: nat)
      requires chunkSize > 0
      modifies log
      ensures var all := Messages(content, chunkSize);
        && IsPassed(env, |all|, passed) && sent == BytesIn(all[..passed]) && (delivered <==> passed == |all|)
        && log.trace == old(log.trace) + Sends(all[..Handed(env, |all|, passed)])
        && (raised <==> StopsByRaising(env, |all|, passed))
    {
      ghost var all := Messages(content, chunkSize);
      sent, delivered, passed := 0, false, 0;
      var ok;
      ok, raised := SendUnlessDisconnected(Start, env(0));
      FirstSent(content, chunkSize);
      SendsStep(old(log.trace), all, 0);
      if !ok {
        return;
      }
      passed := 1;
      var start, i := 0, 1;
      while !delivered
        invariant i == passed && !raised && Sending(all, env, i, content, chunkSize, start, sent, delivered)
        invariant log.trace == old(log.trace) + Sends(all[..i])
        decreases |all| - i
      {
        var stop := ChunkEnd(start, chunkSize, |content|);
        var last := start + chunkSize >= |content|;
        SendingStep(all, env, i, content, chunkSize, start, sent);
        SendsStep(old(log.trace), all, i);
        ok, raised := SendUnlessDisconnected(Body(content[start..stop], !last), env(i));
        if !ok {
          return;
        }
        sent := sent + |content[start..stop]|;
        delivered := last;
        start, i := stop, i + 1;
        passed := i;
      }
      assert all[..|all|] == all;
    }

    /** Exactly one outcome is written, naming the initiated event. It is completed only if every send passed. */
    method Call(headOnly: bool, env: Env, reapRaises: bool, writeFails: bool)
      returns (ghost outcome: Outcome, ghost passed: nat, raised: bool)
      requires chunkSize > 0
      modifies log
      ensures var all := Messages(if headOnly then [] else body, chunkSize);
        && IsPassed(env, |all|, passed)
        && log.trace == old(log.trace) + Sends(all[..Handed(env, |all|, passed)])
          + Outcomes(outcome, BytesIn(all[..passed]), disclosure, writeFails)
        && (outcome == Completed <==> passed == |all| && !reapRaises)
        && (raised <==> StopsByRaising(env, |all|, passed) || reapRaises)
    {
      var content := if headOnly then [] else body;
      var sent, delivered, failed;
      sent, delivered, failed, passed := SendAll(content, env);
      raised := failed || reapRaises;
      if raised {
        outcome := Interrupted;
        log.RecordOutcome(Interrupted, sent, disclosure, writeFails);
        return;
      }
      outcome := if delivered then Completed else Interrupted;
      log.RecordOutcome(if delivered then Completed else Interrupted, sent, disclosure, writeFails);
    }
  }

  lemma SendsStep(before: seq<Action>, all: seq<Message>, i: nat)
    requires i < |all|
    ensures before + Sends(all[..i + 1]) == before + Sends(all[..i]) + [Sent(all[i])]
    ensures before + Sends(all[..0]) == before
  {
  }

  /** After i messages, all of which passed. */
  ghost predicate Sending(
      all: seq<Message>, env: Env, i: nat, content: seq<Byte>, size: nat, start: nat, sent: nat, delivered: bool)
  {
    && 1 <= i <= |all| && (forall k :: 0 <= k < i ==> env(k) == Passed)
    && size > 0 && start <= |content| && sent == BytesIn(all[..i])
    && (delivered <==> i == |all|) && (!delivered ==> all[i..] == Chunks(content, size, start))
  }

  lemma FirstSent(content: seq<Byte>, size: nat)
    requires size > 0
    ensures var all := Messages(content, size);
      |all| > 1 && all[..1] == [Start] && all[..0] == [] && BytesIn(all[..1]) == 0 && all[1..] == Chunks(content, size, 0)
  {
    assert [Start][..0] == [];
    var all := Messages(content, size);
    assert all[..1] == [Start] && all[1..] == Chunks(content, size, 0);
  }

  lemma SendingStep(all: seq<Message>, env: Env, i: nat, content: seq<Byte>, size: nat, start: nat, sent: nat)
    requires Sending(all, env, i, content, size, start, sent, false)
    ensures var stop := ChunkEnd(start, size, |content|);
      var last := start + size >= |content|;
      && i < |all| && start <= stop <= |content| && all[..i + 1] == all[..i] + [Body(content[start..stop], !last)]
      && (env(i) == Passed ==> Sending(all, env, i + 1, content, size, stop, sent + |content[start..stop]|, last))
  {
    NextChunk(all, i, content, size, start);
  }

  lemma NextChunk(all: seq<Message>, i: nat, body: seq<Byte>, size: nat, start: nat)
    requires size > 0 && start <= |body| && i < |all| && all[i..] == Chunks(body, size, start)
    ensures var stop := ChunkEnd(start, size, |body|);
      var last := start + size >= |body|;
      && all[i] == Body(body[start..stop], !last)
      && BytesIn(all[..i + 1]) == BytesIn(all[..i]) + stop - start
      && (last <==> i + 1 == |all|)
      && (!last ==> all[i + 1..] == Chunks(body, size, stop))
      && all[..i + 1] == all[..i] + [all[i]]
  {
    assert all[i] == all[i..][0] && |all[i..]| == |all| - i;
    assert all[i + 1..] == all[i..][1..];
    assert all[..i + 1][..i] == all[..i];
  }

  /** Every message handed over at or after `from` comes after the initiated event, itself recorded at or after `from`. */
  ghost predicate SentAfterInitiated(trace: seq<Action>, from: nat, id: nat) {
    forall i :: from <= i < |trace| && trace[i].Sent? ==> InitiatedBetween(trace, from, i, id)
  }

  ghost predicate InitiatedBetween(trace: seq<Action>, from: nat, to: nat, id: nat)
    requires to <= |trace|
  {
    exists j :: from <= j < to && trace[j] == Logged(Initiated(id))
  }

  /** What one request that was not refused adds to the trace. */
  function RequestTrace(id: nat, sent: seq<Message>, outcome: Outcome, bytesSent: nat, endFails: bool): seq<Action> {
    [Logged(Initiated(id))] + Sends(sent) + Outcomes(outcome, bytesSent, id, endFails)
  }

  lemma InitiatedFirst(before: seq<Action>, id: nat, sent: seq<Message>, outcome: Outcome, bytesSent: nat, endFails: bool)
    ensures SentAfterInitiated(before + RequestTrace(id, sent, outcome, bytesSent, endFails), |before|, id)
  {
    var trace := before + RequestTrace(id, sent, outcome, bytesSent, endFails);
    assert trace[|before|] == Logged(Initiated(id));
  }

  /**
   * A whole request. The trace gets the initiated event, then exactly the messages the sends let through, then the
   * outcome with the bytes of the messages that passed: nothing is handed to the server before the initiated event.
   */
  method ServeDownload(
      log: AuditLog, id: nat, content: seq<Byte>, size: nat, headOnly: bool, env: Env, reapRaises: bool,
      beginFails: bool, endFails: bool)
    returns (refused: bool, ghost sent: seq<Message>, ghost passed: nat, ghost outcome: Outcome, ghost bytesSent: nat)
    requires size > 0
    modifies log
    ensures refused == beginFails && (refused ==> log.trace == old(log.trace))
    ensures !refused ==>
      log.trace == old(log.trace) + [Logged(Initiated(id))] + Sends(sent) + if endFails then [] else [Logged(Ended(outcome, bytesSent, id))]
    ensures SentAfterInitiated(log.trace, |old(log.trace)|, id)
    ensures !refused ==> var all := Messages(if headOnly then [] else content, size);
      && IsPassed(env, |all|, passed) && sent == all[..Handed(env, |all|, passed)] && bytesSent == BytesIn(all[..passed])
      && (outcome == Completed <==> passed == |all| && !reapRaises)
    ensures !refused ==> exists all ::
      IsDelivery(all, if headOnly then [] else content, size, env, passed, sent) &&
      (outcome == Completed <==> passed == |all| && !reapRaises)
    ensures !refused ==> Carry(sent, content, 0) && bytesSent <= BytesIn(sent) && (headOnly ==> BytesIn(sent) == 0)
    ensures !refused && outcome == Completed ==> bytesSent == BytesIn(sent) == if headOnly then 0 else |content|
  {
    var disclosure := log.BeginDisclosure(id, beginFails);
    if disclosure.None? {
      return true, [], 0, Interrupted, 0;
    }
    var download := new Download(content, size, id, log);
    var raised;
    outcome, passed, raised := download.Call(headOnly, env, reapRaises, endFails);
    refused := false;
    ghost var all := Messages(if headOnly then [] else content, size);
    sent, bytesSent := all[..Handed(env, |all|, passed)], BytesIn(all[..passed]);
    RequestData(content, size, headOnly, env, passed, sent, bytesSent);
    MessagesAre(if headOnly then [] else content, size);
    HandedIs(env, all, passed);
    assert IsDelivery(all, if headOnly then [] else content, size, env, passed, sent);
    Joined(old(log.trace), id, sent, outcome, bytesSent, endFails);
    InitiatedFirst(old(log.trace), id, sent, outcome, bytesSent, endFails);
  }

  lemma Joined(before: seq<Action>, id: nat, sent: seq<Message>, outcome: Outcome, bytesSent: nat, endFails: bool)
    ensures before + [Logged(Initiated(id))] + Sends(sent) + Outcomes(outcome, bytesSent, id, endFails)
      == before + RequestTrace(id, sent, outcome, bytesSent, endFails)
  {
  }

  /** The messages that went out carry the response from its first byte. */
  lemma RequestData(content: seq<Byte>, size: nat, headOnly: bool, env: Env, passed: nat, sent: seq<Message>, bytesSent: nat)
    requires size > 0
    requires var all := Messages(if headOnly then [] else content, size);
      IsPassed(env, |all|, passed) && sent == all[..Handed(env, |all|, passed)] && bytesSent == BytesIn(all[..passed])
    ensures Carry(sent, content, 0) && bytesSent <= BytesIn(sent) && (headOnly ==> BytesIn(sent) == 0)
    ensures passed == |Messages(if headOnly then [] else content, size)| ==>
      bytesSent == BytesIn(sent) == if headOnly then 0 else |content|
  {
    HandedData(if headOnly then [] else content, size, passed, |sent|);
    if headOnly {
      CarryNothing(sent, content);
    }
  }

  lemma HandedData(body: seq<Byte>, size: nat, passed: nat, handed: nat)
    requires size > 0 && passed <= handed <= |Messages(body, size)|
    ensures Carry(Messages(body, size)[..handed], body, 0)
    ensures BytesIn(Messages(body, size)[..passed]) <= BytesIn(Messages(body, size)[..handed]) <= |body|
    ensures passed == |Messages(body, size)| ==> BytesIn(Messages(body, size)[..passed]) == |body|
  {
    MessagesCarry(body, size, handed);
    BytesGrow(Messages(body, size), passed, handed);
    BytesGrow(Messages(body, size), handed, |Messages(body, size)|);
  }

  lemma BytesGrow(all: seq<Message>, i: nat, j: nat)
    requires i <= j <= |all|
    ensures BytesIn(all[..i]) <= BytesIn(all[..j]) && all[..|all|] == all
  {
    assert all[..j] == all[..i] + all[i..j];
    BytesConcat(all[..i], all[i..j]);
  }

  /** Nothing but the start message is handed over for HEAD, and the empty body is carried by every body. */
  lemma {:induction false} CarryNothing(messages: seq<Message>, body: seq<Byte>)
    requires Carry(messages, [], 0)
    ensures Carry(messages, body, 0)
    decreases |messages|
  {
    if messages != [] {
      CarryNothing(messages[1..], body);
    }
  }
}
