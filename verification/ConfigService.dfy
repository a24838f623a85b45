/** The setup channel: bounded framing of commands in, a compacting queue of answers out. */
module ConfigService {
  import opened Types
  import opened PersistentConfig
  import opened SetupFraming
  import opened SetupProtocol
  import opened GamepadReceiver

  const INPUT_SIZE := 1025
  const QUEUE_SIZE := 4096
  const MAX_BYTES_PER_SERVICE := 256

  /** The USB serial port; what it has on offer and how much it takes is up to the host. */
  class CdcPort {
    ghost var taken: string
    ghost var delivered: string
    /** Whether the last read found no byte, and everything that was offered. */
    ghost var dry: bool
    ghost var offers: seq<string>

    constructor ()
      ensures taken == "" && delivered == ""
    {
      taken, delivered, dry, offers := "", "", true, [];
    }

    /** One byte, if there is one. */
    method Read() returns (c: Option<char>)
      modifies this`taken, this`dry
      ensures taken == old(taken) + if c.Some? then [c.value] else ""
      ensures dry <==> c.None?
    {
      c := *;
      dry := c.None?;
      if c.Some? {
        taken := taken + [c.value];
      }
    }

    /** Takes any part of the data; an answer beyond its length is a broken backend that took nothing. */
    method Write(data: string) returns (written: nat)
      modifies this`delivered, this`offers
      ensures offers == old(offers) + [data]
      ensures delivered == old(delivered) + if written <= |data| then data[..written] else ""
    {
      offers := offers + [data];
      var answer: int := *;
      written := if answer < 0 then 0 else answer;
      if written <= |data| {
        delivered := delivered + data[..written];
      }
    }
  }

  class ConfigService {
    const port: CdcPort
    const receiver: Receiver
    const identity: Identity
    const input: array<char>
    const tx: array<char>
    var inputSize: nat
    var txSize: nat
    var txOffset: nat
    var overflow: bool
    /** What this session has read, the lines it has queued, and what had left before it began. */
    ghost var consumed: string
    ghost var accepted: seq<string>
    ghost var earlier: string

    constructor (port: CdcPort, receiver: Receiver, identity: Identity)
      requires receiver.Valid()
      ensures InputValid() && QueueValid() && Pending() == ""
      ensures this.port == port && this.receiver == receiver && consumed == "" && accepted == []
      ensures fresh(input) && fresh(tx)
    {
      NothingBuffered();
      this.port, this.receiver, this.identity := port, receiver, identity;
      input := new char[INPUT_SIZE];
      tx := new char[QUEUE_SIZE];
      inputSize, txSize, txOffset, overflow := 0, 0, 0, false;
      consumed, accepted, earlier := "", [], port.delivered;
    }

    /** The input buffer holds the printable bytes of the unfinished line, or as many as fit. */
    ghost predicate InputValid()
      reads this, input
    {
      && input.Length == INPUT_SIZE && inputSize <= LINE_LIMIT
      && Buffered(Unfinished(consumed), input[..inputSize], overflow)
    }

    function Pending(): string
      requires txOffset <= txSize <= tx.Length
      reads this, tx
    {
      tx[txOffset..txSize]
    }

    /** What has left and what is queued is exactly the accepted lines, whole and in order. */
    ghost predicate QueueValid()
      reads this, tx, port
    {
      && tx.Length == QUEUE_SIZE && tx != input
      && txOffset <= txSize <= QUEUE_SIZE
      && port.delivered + Pending() == earlier + Sent(accepted)
    }

    /** How many bytes of this session have left. */
    ghost function Left(): int
      reads this, port
    {
      |port.delivered| - |earlier|
    }

    lemma PendingLength()
      requires QueueValid()
      ensures |Pending()| == Queued(accepted, Left()) && |Pending()| <= QUEUE_SIZE
    {
      assert |port.delivered + Pending()| == |earlier + Sent(accepted)|;
    }

    /** Moves the pending bytes to the front. */
    method Compact()
      requires QueueValid()
      modifies this`txSize, this`txOffset, tx
      ensures QueueValid() && Pending() == old(Pending()) && txOffset == 0
    {
      var pending := txSize - txOffset;
      ghost var was := tx[..];
      for i := 0 to pending
        invariant txSize == old(txSize) && txOffset == old(txOffset)
        invariant forall k :: 0 <= k < i ==> tx[k] == was[txOffset + k]
        invariant forall k :: i <= k < tx.Length ==> tx[k] == was[k]
      {
        tx[i] := tx[txOffset + i];
      }
      assert tx[..pending] == was[txOffset..txSize];
      txSize, txOffset := pending, 0;
    }

    method ServiceTx()
      requires QueueValid()
      modifies this`txSize, this`txOffset, port`delivered, port`offers
      ensures QueueValid()
      ensures |port.delivered| >= |old(port.delivered)|
      ensures |Pending()| <= |old(Pending())| && (txSize == 0 <==> |Pending()| == 0)
      ensures txSize == 0 ==> |port.delivered| == old(|port.delivered|) + |old(Pending())|
      ensures port.offers == old(port.offers) + if old(Pending()) == "" then [] else [old(Pending())]
    {
      hide Sent;
      if txOffset == txSize {
        txOffset, txSize := 0, 0;
        return;
      }
      var data := tx[txOffset..txSize];
      var written := port.Write(data);
      if written > txSize - txOffset {
        return;
      }
      assert data == data[..written] + tx[txOffset + written..txSize];
      txOffset := txOffset + written;
      if txOffset == txSize {
        txOffset, txSize := 0, 0;
      }
    }

    /** Copies data behind the pending bytes. */
    method Append(data: string)
      requires txOffset <= txSize && txSize + |data| <= tx.Length
      modifies this`txSize, tx
      ensures txSize == old(txSize) + |data| && Pending() == old(Pending()) + data
    {
      ghost var was := tx[..];
      for i := 0 to |data|
        invariant txSize == old(txSize)
        invariant tx[..txSize] == was[..txSize]
        invariant tx[txSize..txSize + i] == data[..i]
      {
        tx[txSize + i] := data[i];
      }
      txSize := txSize + |data|;
      assert tx[txOffset..txSize] == was[txOffset..txSize - |data|] + data;
    }

    method Enqueue(line: string)
      requires QueueValid() && txSize + |line| + 1 <= QUEUE_SIZE
      modifies this`txSize, this`accepted, tx
      ensures QueueValid() && accepted == old(accepted) + [line]
      ensures txOffset == old(txOffset) && txSize == old(txSize) + |line| + 1
      ensures Pending() == old(Pending()) + (line + "\n")
    {
      ghost var queued := Pending();
      Append(line + "\n");
      accepted := accepted + [line];
      SentGrows(old(accepted), line);
      BothGrow(port.delivered, queued, earlier, Sent(old(accepted)), line + "\n");
    }

    /** A line is queued whole and offered when there is room for all of it, and dropped whole otherwise. */
    method WriteLine(line: string) returns (ok: bool)
      requires QueueValid()
      modifies this`txSize, this`txOffset, this`accepted, tx, port`delivered, port`offers
      ensures QueueValid()
      ensures ok <==> |line| + 1 <= QUEUE_SIZE - |old(Pending())|
      ensures accepted == old(accepted) + if ok then [line] else []
      ensures port.offers == old(port.offers) + if ok then [old(Pending()) + (line + "\n")] else []
      ensures |Pending()| <= |old(Pending())| + |line| + 1
      ensures |port.delivered| >= |old(port.delivered)|
    {
      hide Sent;
      if |line| > tx.Length - 1 {
        return false;
      }
      if txOffset != 0 && tx.Length - txSize < |line| + 1 {
        Compact();
      }
      if tx.Length - txSize < |line| + 1 {
        return false;
      }
      Enqueue(line);
      ServiceTx();
      ok := true;
    }

    /** Announces a scan result or a pairing state while the port is open. */
    method Emit(event: string)
      requires QueueValid()
      modifies this`txSize, this`txOffset, this`accepted, tx, port`delivered, port`offers
      ensures QueueValid()
      ensures accepted == old(accepted)
                          + if receiver.setup.active && |event| + 1 <= QUEUE_SIZE - |old(Pending())| then [event] else []
      ensures |Pending()| <= |old(Pending())| + |event| + 1
      ensures |port.delivered| >= |old(port.delivered)|
    {
      if receiver.setup.active {
        var _ := WriteLine(event);
      }
    }

    /** One event of the radio, the controller or the endpoint, and what it announces. */
    method HandleEvent(e: Event)
      requires QueueValid() && receiver.Valid() && !e.SetupPass?
      modifies this`txSize, this`txOffset, this`accepted, tx, port`delivered, port`offers
      modifies receiver, receiver.mapper, receiver.store, receiver.store.tlv
      ensures QueueValid() && receiver.Valid()
      ensures receiver.View() == Step(old(receiver.View()), e)
      ensures KeptAll(old(accepted), accepted, QUEUE_SIZE - |old(Pending())|, EventNotices(old(receiver.View()), e))
    {
      hide Step, EventNotice, Sent;
      var before := receiver.pairing;
      receiver.Handle(e);
      EventKeepsSetup(old(receiver.View()), e);
      var notice := EventNotice(before, receiver.pairing, e);
      if notice.Some? {
        Emit(notice.value);
        SentLengths(notice.value, "");
      }
    }

    /** Queues the announcement, if there is one, and then the response. */
    method Respond(announced: Option<string>, reply: Reply)
      requires QueueValid() && (announced.Some? ==> receiver.setup.active)
      modifies this`txSize, this`txOffset, this`accepted, tx, port`delivered, port`offers
      ensures QueueValid()
      ensures KeptAll(old(accepted), accepted, QUEUE_SIZE - |old(Pending())|, Lines(announced, reply))
      ensures |port.delivered| >= |old(port.delivered)|
    {
      hide Response;
      var response := Response(reply);
      SentLengths(response, "");
      if announced.Some? {
        SentLengths(announced.value, response);
        Emit(announced.value);
      }
      var _ := WriteLine(response);
    }

    /** Carries out one command line and answers it. */
    method HandleLine(line: string, now: uint32, env: StoreEnv)
      requires QueueValid() && receiver.Valid() && receiver.setup.active
      modifies this`txSize, this`txOffset, this`accepted, tx, port`delivered, port`offers
      modifies receiver`arming, receiver`pairing, receiver`output, receiver`productionMapping
      modifies receiver.store, receiver.store.tlv
      ensures QueueValid() && receiver.Valid()
      ensures receiver.View() == Handle(old(receiver.View()), Line(line), now, env)
      ensures KeptAll(old(accepted), accepted, QUEUE_SIZE - |old(Pending())|,
                      Answers(old(receiver.View()), line, env, identity))
      ensures |port.delivered| >= |old(port.delivered)|
    {
      hide LineRequest, ReplyTo, Lines, NoticeOf, Execute, Succeeds, KeptAll;
      var mapping, sequence := receiver.productionMapping, receiver.store.sequence;
      var request := LineRequest(mapping, receiver.pairing.candidate, line, env);
      var ok, announced := false, None;
      if request.Some? {
        ok := receiver.ExecuteRequest(request.value, now);
        announced := if ok then NoticeOf(request.value) else None;
      }
      Respond(announced, ReplyTo(mapping, sequence, line, ok, identity));
    }

    /** Takes one byte that does not end a line. */
    method TakeByte(c: char)
      requires InputValid() && tx != input && c != '\n'
      modifies this`inputSize, this`overflow, this`consumed, input
      ensures InputValid() && consumed == old(consumed) + [c]
    {
      hide Buffered, Unfinished;
      ghost var raw, text := Unfinished(consumed), input[..inputSize];
      NextByte(consumed, c);
      BufferedNext(raw, text, overflow, c);
      consumed := consumed + [c];
      if c != '\r' {
        if c < ' ' {
          overflow := true;
        } else if inputSize < input.Length - 1 {
          input[inputSize] := c;
          inputSize := inputSize + 1;
          assert input[..inputSize] == text + [c];
        } else {
          overflow := true;
        }
      }
    }

    /** Handles, refuses or ignores the line that has just ended. */
    method Dispatch(now: uint32, env: StoreEnv) returns (framed: bool)
      requires InputValid() && QueueValid() && receiver.Valid() && receiver.setup.active
      modifies this`txSize, this`txOffset, this`accepted, tx, port`delivered, port`offers
      modifies receiver`arming, receiver`pairing, receiver`output, receiver`productionMapping
      modifies receiver.store, receiver.store.tlv
      ensures QueueValid() && receiver.Valid()
      ensures |port.delivered| >= |old(port.delivered)|
      ensures framed <==> Judge(Unfinished(consumed)) != []
      ensures receiver.View() == HandleAll(old(receiver.View()), Judge(Unfinished(consumed)), now, [env])
      ensures KeptAll(old(accepted), accepted, QUEUE_SIZE - |old(Pending())|,
                      AllAnswers(old(receiver.View()), Judge(Unfinished(consumed)), now, [env], identity))
    {
      hide Handle, Execute, Buffered, Unfinished, Judge, HandleAll, Sent, Answers, AllAnswers, Lines, KeptAll;
      ghost var s := receiver.View();
      var line := input[..inputSize];
      BufferedJudge(Unfinished(consumed), line, overflow);
      framed := overflow || line != "";
      if overflow {
        OneFrame(s, Rejected, now, env);
        OneAnswered(s, Rejected, now, env, identity);
        RefusedChangesNothing(s, now, env);
        Respond(None, REFUSAL);
      } else if line != "" {
        OneFrame(s, Line(line), now, env);
        OneAnswered(s, Line(line), now, env, identity);
        HandleLine(line, now, env);
      } else {
        NothingToHandle(s, now, [env]);
        NothingToAnswer(s, now, [env], identity);
        NothingKept(accepted, QUEUE_SIZE - |Pending()|);
      }
    }

    /** Ends the line and starts the next one. */
    method EndLine(now: uint32, env: StoreEnv) returns (framed: bool)
      requires InputValid() && QueueValid() && receiver.Valid() && receiver.setup.active
      modifies this`inputSize, this`overflow, this`consumed
      modifies this`txSize, this`txOffset, this`accepted, tx, port`delivered, port`offers
      modifies receiver`arming, receiver`pairing, receiver`output, receiver`productionMapping
      modifies receiver.store, receiver.store.tlv
      ensures InputValid() && QueueValid() && receiver.Valid()
      ensures |port.delivered| >= |old(port.delivered)|
      ensures consumed == old(consumed) + "\n"
      ensures framed <==> Judge(Unfinished(old(consumed))) != []
      ensures receiver.View() == HandleAll(old(receiver.View()), Judge(Unfinished(old(consumed))), now, [env])
      ensures KeptAll(old(accepted), accepted, QUEUE_SIZE - |old(Pending())|,
                      AllAnswers(old(receiver.View()), Judge(Unfinished(old(consumed))), now, [env], identity))
    {
      hide Buffered, Unfinished, Judge, HandleAll, Sent, AllAnswers, KeptAll;
      framed := Dispatch(now, env);
      NextByte(consumed, '\n');
      NothingBuffered();
      inputSize, overflow := 0, false;
      consumed := consumed + "\n";
    }

    /** Takes the next byte, whatever it is. */
    method HandleByte(c: char, now: uint32, env: StoreEnv) returns (framed: bool)
      requires InputValid() && QueueValid() && receiver.Valid() && receiver.setup.active
      modifies this`inputSize, this`overflow, this`consumed, input
      modifies this`txSize, this`txOffset, this`accepted, tx, port`delivered, port`offers
      modifies receiver`arming, receiver`pairing, receiver`output, receiver`productionMapping
      modifies receiver.store, receiver.store.tlv
      ensures InputValid() && QueueValid() && receiver.Valid()
      ensures |port.delivered| >= |old(port.delivered)|
      ensures consumed == old(consumed) + [c]
      ensures framed <==> Completed(old(consumed), c) != []
      ensures receiver.View() == HandleAll(old(receiver.View()), Completed(old(consumed), c), now, [env])
      ensures KeptAll(old(accepted), accepted, QUEUE_SIZE - |old(Pending())|,
                      AllAnswers(old(receiver.View()), Completed(old(consumed), c), now, [env], identity))
    {
      hide Buffered, Unfinished, Judge, HandleAll, Sent, AllAnswers, KeptAll;
      if c == '\n' {
        framed := EndLine(now, env);
      } else {
        NothingToHandle(receiver.View(), now, [env]);
        NothingToAnswer(receiver.View(), now, [env], identity);
        NothingKept(accepted, QUEUE_SIZE - |Pending()|);
        TakeByte(c);
        framed := false;
      }
    }

    method EndSession()
      requires QueueValid() && input.Length == INPUT_SIZE
      modifies this
      ensures InputValid() && QueueValid() && consumed == "" && accepted == [] && Pending() == ""
    {
      inputSize, txSize, txOffset, overflow := 0, 0, 0, false;
      consumed, accepted, earlier := "", [], port.delivered;
      NothingBuffered();
      NoLineFeedNoFrame("");
    }

    /**
     * Reads 256 bytes, or fewer if the port runs dry; every line they complete is carried out in order, and
     * answered if there is room.
     */
    method ReadBytes(now: uint32, envs: seq<StoreEnv>) returns (ghost bytes: string)
      requires InputValid() && QueueValid() && receiver.Valid() && receiver.setup.active
      requires |envs| >= 256
      modifies this`inputSize, this`overflow, this`consumed, input
      modifies this`txSize, this`txOffset, this`accepted, tx, port
      modifies receiver`arming, receiver`pairing, receiver`output, receiver`productionMapping
      modifies receiver.store, receiver.store.tlv
      ensures InputValid() && QueueValid() && receiver.Valid()
      ensures port.taken == old(port.taken) + bytes && |bytes| <= 256 && (|bytes| < 256 ==> port.dry)
      ensures bytes == "" ==> port.offers == old(port.offers) && txSize == old(txSize) && txOffset == old(txOffset)
      ensures consumed == old(consumed) + bytes && |port.delivered| >= |old(port.delivered)|
      ensures var frames := NewFrames(old(consumed), bytes);
              && receiver.View() == HandleAll(old(receiver.View()), frames, now, envs)
              && KeptAll(old(accepted), accepted, QUEUE_SIZE - |old(Pending())|,
                         AllAnswers(old(receiver.View()), frames, now, envs, identity))
    {
      hide HandleAll, NewFrames, Completed, Unfinished, Buffered, Sent, AllAnswers, KeptAll, Queued, Receiver.View,
        Pending;
      ghost var start, before := receiver.View(), consumed;
      ghost var frames: seq<Frame> := [];
      ghost var left := Left();
      PendingLength();
      bytes := "";
      NothingNew(consumed);
      NothingToHandle(start, now, envs);
      NothingToAnswer(start, now, envs, identity);
      NothingKept(accepted, QUEUE_SIZE - |Pending()|);
      var processed, framed := 0, 0;
      while processed < MAX_BYTES_PER_SERVICE
        invariant InputValid() && QueueValid() && receiver.Valid() && receiver.setup.active
        invariant 0 <= framed <= processed <= MAX_BYTES_PER_SERVICE
        invariant port.taken == old(port.taken) + bytes && |bytes| == processed
        invariant processed == 0 ==> port.offers == old(port.offers) && txSize == old(txSize) && txOffset == old(txOffset)
        invariant consumed == before + bytes && Left() >= left
        invariant frames == NewFrames(before, bytes) && framed == |frames|
        invariant receiver.View() == HandleAll(start, frames, now, envs)
        invariant KeptAll(old(accepted), accepted, QUEUE_SIZE - |old(Pending())|,
                          AllAnswers(start, frames, now, envs, identity))
      {
        var c := port.Read();
        if c.None? {
          break;
        }
        ghost var last := Completed(consumed, c.value);
        NextNewFrames(before, bytes, c.value);
        HandleNext(start, frames, last, now, envs);
        AnswerNext(start, frames, last, now, envs, identity);
        PendingLength();
        ghost var here, leftNow := accepted, Left();
        var complete := HandleByte(c.value, now, envs[framed]);
        KeptAllTwice(old(accepted), here, accepted, QUEUE_SIZE, left, leftNow,
                     AllAnswers(start, frames, now, envs, identity),
                     AllAnswers(HandleAll(start, frames, now, envs), last, now, [envs[framed]], identity));
        frames := frames + last;
        framed := framed + if complete then 1 else 0;
        processed := processed + 1;
        bytes := bytes + [c.value];
      }
    }

    /** The part of a pass with the port open: old answers first, then new bytes. */
    method ServiceOpen(now: uint32, envs: seq<StoreEnv>) returns (ghost bytes: string)
      requires InputValid() && QueueValid() && receiver.Valid() && receiver.setup.active
      requires |envs| >= 256
      modifies this`inputSize, this`overflow, this`consumed, input
      modifies this`txSize, this`txOffset, this`accepted, tx, port
      modifies receiver`arming, receiver`pairing, receiver`output, receiver`productionMapping
      modifies receiver.store, receiver.store.tlv
      ensures InputValid() && QueueValid() && receiver.Valid()
      ensures port.taken == old(port.taken) + bytes && |bytes| <= 256
      ensures |bytes| < 256 ==> port.dry || (bytes == "" && Pending() != "")
      ensures bytes == "" && old(Pending()) != "" ==> port.offers == old(port.offers) + [old(Pending())]
      ensures consumed == old(consumed) + bytes
      ensures bytes != "" ==> |port.delivered| >= |old(port.delivered)| + |old(Pending())|
      ensures var open, frames := old(receiver.View()), NewFrames(old(consumed), bytes);
              && receiver.View() == HandleAll(open, frames, now, envs)
              && KeptAll(old(accepted), accepted, QUEUE_SIZE, AllAnswers(open, frames, now, envs, identity))
      ensures bytes != "" && port.delivered == old(port.delivered) ==>
                var answers := AllAnswers(old(receiver.View()), NewFrames(old(consumed), bytes), now, envs, identity);
                accepted == old(accepted) + answers <==> |Sent(answers)| <= QUEUE_SIZE
    {
      hide HandleAll, AllAnswers, NewFrames, KeptAll, Receiver.View, QueueValid, Buffered, Unfinished;
      ghost var open, before, left := receiver.View(), accepted, Left();
      PendingLength();
      ServiceTx();
      if txSize != 0 {
        bytes := "";
        NothingNew(consumed);
        NothingToHandle(open, now, envs);
        NothingToAnswer(open, now, envs, identity);
        NothingKept(accepted, QUEUE_SIZE);
        return;
      }
      bytes := ReadBytes(now, envs);
      ServiceTx();
      PendingLength();
      if port.delivered == old(port.delivered) && bytes != "" {
        KeptFromEmpty(before, accepted, QUEUE_SIZE, left, AllAnswers(open, NewFrames(old(consumed), bytes), now, envs, identity));
      }
    }

    /**
     * One pass: nothing is read while earlier answers wait, a closed port ends the session, and answers
     * that fit into the empty queue together are all kept; if none leaves meanwhile, only those that fit are.
     */
    method Service(connected: bool, now: uint32, envs: seq<StoreEnv>) returns (ghost bytes: string)
      requires InputValid() && QueueValid() && receiver.Valid() && |envs| >= 256
      modifies this, input, tx, port
      modifies receiver`arming, receiver`pairing, receiver`output, receiver`productionMapping, receiver`setup
      modifies receiver.store, receiver.store.tlv
      ensures InputValid() && QueueValid() && receiver.Valid()
      ensures port.taken == old(port.taken) + bytes && |bytes| <= 256
      ensures connected && |bytes| < 256 ==> port.dry || (bytes == "" && Pending() != "")
      ensures connected && bytes == "" && old(Pending()) != "" ==> port.offers == old(port.offers) + [old(Pending())]
      ensures connected ==>
                var open, frames := WithSetup(old(receiver.View()), true), NewFrames(old(consumed), bytes);
                && consumed == old(consumed) + bytes
                && (bytes != "" ==> |port.delivered| >= |old(port.delivered)| + |old(Pending())|)
                && receiver.View() == HandleAll(open, frames, now, envs)
                && KeptAll(old(accepted), accepted, QUEUE_SIZE, AllAnswers(open, frames, now, envs, identity))
      ensures connected && bytes != "" && port.delivered == old(port.delivered) ==>
                var open := WithSetup(old(receiver.View()), true);
                var answers := AllAnswers(open, NewFrames(old(consumed), bytes), now, envs, identity);
                accepted == old(accepted) + answers <==> |Sent(answers)| <= QUEUE_SIZE
      ensures !connected ==>
                && bytes == "" && consumed == "" && accepted == [] && Pending() == ""
                && receiver.View() == WithSetup(old(receiver.View()), false)
    {
      hide HandleAll, AllAnswers, NewFrames, Unfinished, Buffered, WithSetup, Sent, KeptAll, Receiver.View;
      bytes := "";
      receiver.OpenOrCloseSetup(connected);
      if connected {
        bytes := ServiceOpen(now, envs);
      } else {
        EndSession();
      }
    }

    /** The main loop's setup step: for the receiver it is one setup event carrying exactly the lines' requests. */
    method SetupStep(connected: bool, t: nat, envs: seq<StoreEnv>) returns (ghost bytes: string)
      requires InputValid() && QueueValid() && receiver.Valid() && |envs| >= 256
      modifies this, input, tx, port
      modifies receiver`arming, receiver`pairing, receiver`output, receiver`productionMapping, receiver`setup
      modifies receiver.store, receiver.store.tlv
      ensures InputValid() && QueueValid() && receiver.Valid()
      ensures port.taken == old(port.taken) + bytes && |bytes| <= 256
      ensures var open := WithSetup(old(receiver.View()), true);
              var requests := Requests(open, NewFrames(old(consumed), bytes), Clock(t), envs);
              receiver.View() == Step(old(receiver.View()), SetupPass(connected, if connected then requests else [], t))
    {
      hide HandleAll, ExecuteAll, AllAnswers, NewFrames, Requests, AfterSetup, WithSetup, Buffered, Sent, KeptAll;
      ghost var open, before := WithSetup(receiver.View(), true), consumed;
      bytes := Service(connected, Clock(t), envs);
      FramesAreRequests(open, NewFrames(before, bytes), Clock(t), envs);
      receiver.SettleSetup();
    }
  }

  lemma BothGrow(left: string, pending: string, right: string, sent: string, more: string)
    requires left + pending == right + sent
    ensures left + (pending + more) == right + (sent + more)
  {
    assert left + (pending + more) == left + pending + more;
    assert right + (sent + more) == right + sent + more;
  }
}
