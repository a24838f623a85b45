/** How many short lines one pass can answer before answers are dropped. */
module SetupDrops {
  import opened Types
  import opened PersistentConfig
  import opened FieldParser
  import opened QuotedText
  import opened SetupFraming
  import opened SetupProtocol
  import opened GamepadReceiver
  import MappingText
  import ConfigService

  function ShortLines(n: nat): (bytes: string)
    ensures |bytes| == 2 * n
  {
    if n == 0 then "" else ShortLines(n - 1) + "x" + "\n"
  }

  function ShortFrames(n: nat): (frames: seq<Frame>)
    ensures |frames| == n
  {
    if n == 0 then [] else ShortFrames(n - 1) + [Line("x")]
  }

  lemma {:induction false} ShortLinesAreFrames(n: nat)
    ensures FramesOf(ShortLines(n)) == ShortFrames(n) && Unfinished(ShortLines(n)) == ""
  {
    hide FramesOf, Unfinished, Judge;
    if n == 0 {
      NoLineFeedNoFrame("");
    } else {
      var before := ShortLines(n - 1);
      ShortLinesAreFrames(n - 1);
      NextByte(before, 'x');
      NextByte(before + "x", '\n');
      ShortLineIsJudged();
      assert "" + ['x'] == "x";
    }
  }

  lemma ShortLineIsJudged()
    ensures Judge("x") == [Line("x")]
  {
    CleanLineIsKept("x");
  }

  const COMPLAINT: Reply := Failure("UNSUPPORTED_PROTOCOL")

  lemma ComplaintLength()
    ensures |Response(COMPLAINT)| == 56
  {
  }

  lemma ShortLineIsNoRequest(s: State, env: StoreEnv, id: Identity)
    ensures RequestIn(s, "x", env) == None
    ensures Answers(s, "x", env, id) == [Response(COMPLAINT)]
  {
    hide MappingText.ParseMapping, Response;
    assert FindOnce("x", BareKey("protocol")).None?;
    assert !SpeaksProtocol("x") && CommandOf("x").None?;
  }

  /** Every short line changes nothing and is answered with 57 bytes. */
  lemma {:induction false} ShortFramesAreAnswered(s: State, n: nat, now: uint32, envs: seq<StoreEnv>, id: Identity)
    requires n <= |envs|
    ensures HandleAll(s, ShortFrames(n), now, envs) == s
    ensures |Sent(AllAnswers(s, ShortFrames(n), now, envs, id))| == 57 * n
  {
    hide HandleAll, AllAnswers, Sent, Response, Answers, RequestIn;
    if n == 0 {
      NothingToHandle(s, now, envs);
      NothingToAnswer(s, now, envs, id);
      NothingIsSent();
    } else {
      ShortFramesAreAnswered(s, n - 1, now, envs, id);
      ShortLineIsNoRequest(s, envs[n - 1], id);
      HandleOneMore(s, ShortFrames(n - 1), Line("x"), now, envs);
      AnswerNext(s, ShortFrames(n - 1), [Line("x")], now, envs, id);
      OneAnswered(s, Line("x"), now, envs[n - 1], id);
      SentInParts(AllAnswers(s, ShortFrames(n - 1), now, envs, id), [Response(COMPLAINT)]);
      SentLengths(Response(COMPLAINT), "");
      ComplaintLength();
    }
  }

  lemma NothingIsSent()
    ensures |Sent([])| == 0
  {
  }

  /**
   * The input that overfills the queue: read from a line boundary on, up to 71 short lines have their answers
   * fit, and 72 of them, 144 bytes of the 256 a pass reads, do not.
   */
  lemma SeventyTwoLinesAreTooMany(
    s: State, before: string, n: nat, now: uint32, envs: seq<StoreEnv>, id: Identity)
    requires Unfinished(before) == "" && 2 * n <= |envs|
    ensures var answers := AllAnswers(s, NewFrames(before, ShortLines(n)), now, envs, id);
            |Sent(answers)| <= ConfigService.QUEUE_SIZE <==> n < 72
  {
    hide AllAnswers, NewFrames, Sent, HandleAll;
    NewFramesAtBoundary(before, ShortLines(n));
    ShortLinesAreFrames(n);
    ShortFramesAreAnswered(s, n, now, envs, id);
  }

  /** A pass that reads 72 such lines while the host takes nothing cannot keep all its answers. */
  method DroppingPass(service: ConfigService.ConfigService, now: uint32, envs: seq<StoreEnv>) returns (ghost bytes: string)
    requires service.InputValid() && service.QueueValid() && service.receiver.Valid()
    requires |envs| >= 256 && Unfinished(service.consumed) == ""
    modifies service, service.input, service.tx, service.port
    modifies service.receiver, service.receiver.store, service.receiver.store.tlv
    ensures bytes == ShortLines(72) && service.port.delivered == old(service.port.delivered) ==>
              var open := WithSetup(old(service.receiver.View()), true);
              var answers := AllAnswers(open, NewFrames(old(service.consumed), bytes), now, envs, service.identity);
              service.accepted != old(service.accepted) + answers
  {
    hide AllAnswers, NewFrames, ShortLines, HandleAll, WithSetup, KeptAll, Sent, Receiver.View;
    ghost var open := WithSetup(service.receiver.View(), true);
    SeventyTwoLinesAreTooMany(open, service.consumed, 72, now, envs, service.identity);
    bytes := service.Service(true, now, envs);
  }
}
