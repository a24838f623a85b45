/** The setup channel's two byte streams, seen without buffers: frames in, lines out. Bytes are `char`. */
module SetupFraming {

  const LINE_LIMIT := 1024

  /** A complete input line, or one that must be refused as a whole. */
  datatype Frame = Line(text: string) | Rejected

  predicate IsControl(c: char) {
    c < ' '
  }

  predicate Clean(text: string) {
    forall k :: 0 <= k < |text| ==> !IsControl(text[k])
  }

  function Printable(raw: string): (text: string)
    ensures |text| <= |raw|
    ensures forall c :: c in text <==> c in raw && !IsControl(c)
  {
    if raw == "" then ""
    else
      var n := |raw| - 1;
      Printable(raw[..n]) + if IsControl(raw[n]) then "" else [raw[n]]
  }

  /** Any control byte but CR spoils the line. */
  predicate Spoiled(raw: string) {
    exists c :: c in raw && IsControl(c) && c != '\r'
  }

  /** The verdict on everything between two line feeds: CR is dropped, empty lines are ignored. */
  function Judge(raw: string): (frames: seq<Frame>)
    ensures |frames| <= 1
  {
    var text := Printable(raw);
    if Spoiled(raw) || |text| > LINE_LIMIT then [Rejected] else if text == "" then [] else [Line(text)]
  }

  function WithoutCr(raw: string): string {
    if raw == "" then "" else WithoutCr(raw[..|raw| - 1]) + if raw[|raw| - 1] == '\r' then "" else [raw[|raw| - 1]]
  }

  lemma {:induction false} PrintableIsWithoutCr(raw: string)
    requires forall c <- raw :: c as int >= 32 || c == '\r'
    ensures Printable(raw) == WithoutCr(raw)
  {
    if raw != "" {
      var before := raw[..|raw| - 1];
      assert forall c <- before :: c in raw;
      assert forall c <- before :: c as int >= 32 || c == '\r';
      assert raw[|raw| - 1] in raw;
      PrintableIsWithoutCr(before);
    }
  }

  /** A line is refused for any byte below 32 but CR, or for more than 1024 bytes; without its CRs it is handled. */
  lemma JudgeIsDocumented(raw: string)
    ensures Judge(raw)
            == if exists c <- raw :: (c as int) < 32 && c != '\r' then [Rejected]
               else if |WithoutCr(raw)| > 1024 then [Rejected]
               else if WithoutCr(raw) == "" then []
               else [Line(WithoutCr(raw))]
  {
    if forall c <- raw :: c as int >= 32 || c == '\r' {
      PrintableIsWithoutCr(raw);
    }
  }

  /** The bytes after the last line feed. */
  function Unfinished(bytes: string): (raw: string)
    ensures '\n' !in raw && |raw| <= |bytes|
  {
    if bytes == "" then ""
    else
      var n := |bytes| - 1;
      if bytes[n] == '\n' then "" else Unfinished(bytes[..n]) + [bytes[n]]
  }

  /** The frames a byte stream has completed. */
  function FramesOf(bytes: string): (frames: seq<Frame>)
    ensures |frames| <= |bytes|
  {
    if bytes == "" then []
    else
      var n := |bytes| - 1;
      FramesOf(bytes[..n]) + if bytes[n] == '\n' then Judge(Unfinished(bytes[..n])) else []
  }

  lemma {:induction false} NoLineFeedNoFrame(raw: string)
    requires '\n' !in raw
    ensures Unfinished(raw) == raw && FramesOf(raw) == []
  {
    if raw != "" {
      NoLineFeedNoFrame(raw[..|raw| - 1]);
    }
  }

  /** One byte more. */
  lemma NextByte(bytes: string, c: char)
    ensures Unfinished(bytes + [c]) == if c == '\n' then "" else Unfinished(bytes) + [c]
    ensures FramesOf(bytes + [c]) == FramesOf(bytes) + if c == '\n' then Judge(Unfinished(bytes)) else []
  {
    hide Judge;
    assert (bytes + [c])[..|bytes|] == bytes;
  }

  lemma EndedLine(bytes: string)
    requires bytes != "" && bytes[|bytes| - 1] == '\n'
    ensures Unfinished(bytes) == ""
  {
  }

  lemma {:induction false} FramesAfterLineFeed(before: string, rest: string)
    requires before != "" && before[|before| - 1] == '\n'
    ensures Unfinished(before + rest) == Unfinished(rest)
    ensures FramesOf(before + rest) == FramesOf(before) + FramesOf(rest)
  {
    hide Judge, FramesOf, Unfinished;
    if rest == "" {
      assert before + rest == before;
      NoLineFeedNoFrame("");
      EndedLine(before);
    } else {
      var n := |rest| - 1;
      FramesAfterLineFeed(before, rest[..n]);
      assert before + rest == (before + rest[..n]) + [rest[n]];
      assert rest == rest[..n] + [rest[n]];
      NextByte(before + rest[..n], rest[n]);
      NextByte(rest[..n], rest[n]);
    }
  }

  /** Frames are the pieces between line feeds, each judged on its own. */
  lemma FramesSplitAtLineFeeds(line: string, rest: string)
    requires '\n' !in line
    ensures FramesOf(line + "\n" + rest) == Judge(line) + FramesOf(rest)
  {
    hide FramesOf, Unfinished, Judge;
    NoLineFeedNoFrame(line);
    NextByte(line, '\n');
    FramesAfterLineFeed(line + "\n", rest);
  }

  /** More bytes only ever add frames: how the stream is cut into passes does not matter. */
  lemma {:induction false} FramesOnlyGrow(bytes: string, more: string)
    ensures |FramesOf(bytes)| <= |FramesOf(bytes + more)| <= |FramesOf(bytes)| + |more|
    ensures FramesOf(bytes + more)[..|FramesOf(bytes)|] == FramesOf(bytes)
  {
    if more == "" {
      assert bytes + more == bytes;
    } else {
      var n := |more| - 1;
      assert (bytes + more)[..|bytes + more| - 1] == bytes + more[..n];
      FramesOnlyGrow(bytes, more[..n]);
    }
  }

  function Take(s: string, n: nat): string {
    if |s| <= n then s else s[..n]
  }

  /** The bytes a sequence of whole lines makes on the wire. */
  function Sent(lines: seq<string>): string {
    if lines == [] then "" else Sent(lines[..|lines| - 1]) + lines[|lines| - 1] + "\n"
  }

  lemma SentGrows(lines: seq<string>, line: string)
    ensures Sent(lines + [line]) == Sent(lines) + (line + "\n")
  {
    assert (lines + [line])[..|lines|] == lines;
    assert Sent(lines) + line + "\n" == Sent(lines) + (line + "\n");
  }

  lemma OneMorePrintable(raw: string, c: char)
    ensures Printable(raw + [c]) == Printable(raw) + if IsControl(c) then "" else [c]
    ensures Spoiled(raw + [c]) <==> Spoiled(raw) || (IsControl(c) && c != '\r')
  {
    assert (raw + [c])[..|raw|] == raw;
    assert forall x :: x in raw + [c] <==> x in raw || x == c;
  }

  lemma NothingPrintable()
    ensures Printable("") == "" && !Spoiled("")
  {
  }

  /** A clean, short enough line is handled as it was sent. */
  lemma {:induction false} CleanLineIsKept(line: string)
    requires Clean(line)
    ensures Printable(line) == line && !Spoiled(line)
  {
    hide Printable, Spoiled, IsControl;
    NothingPrintable();
    if line != "" {
      var n := |line| - 1;
      CleanLineIsKept(line[..n]);
      OneMorePrintable(line[..n], line[n]);
      assert line == line[..n] + [line[n]];
    }
  }

  /** A bounded buffer and an overflow mark stand for an unfinished line of any length. */
  ghost predicate Buffered(raw: string, text: string, overflow: bool) {
    && text == Take(Printable(raw), LINE_LIMIT)
    && (overflow <==> Spoiled(raw) || |Printable(raw)| > LINE_LIMIT)
  }

  lemma NothingBuffered()
    ensures Buffered("", "", false)
  {
  }

  lemma BufferedNext(raw: string, text: string, overflow: bool, c: char)
    requires Buffered(raw, text, overflow)
    ensures |text| <= LINE_LIMIT
    ensures if c == '\r' then Buffered(raw + [c], text, overflow)
            else if IsControl(c) || |text| == LINE_LIMIT then Buffered(raw + [c], text, true)
            else Buffered(raw + [c], text + [c], overflow)
  {
    hide Printable, Spoiled;
    OneMorePrintable(raw, c);
    if !IsControl(c) {
      var all := Printable(raw);
      assert |all| >= LINE_LIMIT ==> (all + [c])[..LINE_LIMIT] == all[..LINE_LIMIT];
    }
  }

  lemma BufferedJudge(raw: string, text: string, overflow: bool)
    requires Buffered(raw, text, overflow)
    ensures Judge(raw) == if overflow then [Rejected] else if text == "" then [] else [Line(text)]
  {
    hide Printable, Spoiled;
  }

  /** The frames a stretch of bytes adds to those before it. */
  function NewFrames(before: string, bytes: string): (frames: seq<Frame>)
    ensures |frames| <= |bytes|
  {
    FramesOnlyGrow(before, bytes);
    FramesOf(before + bytes)[|FramesOf(before)|..]
  }

  lemma NothingNew(before: string)
    ensures NewFrames(before, "") == []
  {
    hide FramesOf;
    assert before + "" == before;
  }

  /** What one more byte completes. */
  function Completed(bytes: string, c: char): (frames: seq<Frame>)
    ensures |frames| <= 1
  {
    if c == '\n' then Judge(Unfinished(bytes)) else []
  }

  lemma NextNewFrames(before: string, bytes: string, c: char)
    ensures NewFrames(before, bytes + [c]) == NewFrames(before, bytes) + Completed(before + bytes, c)
  {
    hide Judge, FramesOf, Unfinished;
    assert before + (bytes + [c]) == before + bytes + [c];
    NextByte(before + bytes, c);
    FramesOnlyGrow(before, bytes);
  }

  /** Passes compose: what two stretches complete is what they complete one after the other. */
  lemma NewFramesInParts(before: string, first: string, second: string)
    ensures NewFrames(before, first + second) == NewFrames(before, first) + NewFrames(before + first, second)
  {
    hide FramesOf;
    assert before + (first + second) == before + first + second;
    FramesOnlyGrow(before, first);
    FramesOnlyGrow(before + first, second);
    FramesOnlyGrow(before, first + second);
  }

  /** At a line boundary the past does not matter. */
  lemma NewFramesAtBoundary(before: string, bytes: string)
    requires Unfinished(before) == ""
    ensures NewFrames(before, bytes) == FramesOf(bytes)
  {
    if before == "" {
      hide FramesOf;
      assert before + bytes == bytes;
      NoLineFeedNoFrame("");
    } else {
      assert before[|before| - 1] == '\n';
      hide FramesOf;
      FramesAfterLineFeed(before, bytes);
    }
  }

  /** Without a line feed nothing is completed, whatever came before. */
  lemma {:induction false} NothingCompleted(before: string, bytes: string)
    requires '\n' !in bytes
    ensures NewFrames(before, bytes) == []
  {
    hide NewFrames;
    if bytes == "" {
      NothingNew(before);
    } else {
      var n := |bytes| - 1;
      NothingCompleted(before, bytes[..n]);
      NextNewFrames(before, bytes[..n], bytes[n]);
      assert bytes == bytes[..n] + [bytes[n]];
    }
  }

  lemma SentLengths(first: string, second: string)
    ensures |Sent([first])| == |first| + 1
    ensures |Sent([first, second])| == |first| + |second| + 2
  {
    SentGrows([], first);
    SentGrows([first], second);
    assert [] + [first] == [first] && [first] + [second] == [first, second];
  }

  lemma {:induction false} SentInParts(first: seq<string>, second: seq<string>)
    ensures |Sent(first + second)| == |Sent(first)| + |Sent(second)|
  {
    if second == [] {
      assert first + second == first;
    } else {
      var n := |second| - 1;
      assert first + second == first + second[..n] + [second[n]];
      SentInParts(first, second[..n]);
      SentGrows(first + second[..n], second[n]);
    }
  }

  /** Answers that fit into the room there was have all been queued. */
  ghost predicate KeptAll(before: seq<string>, after: seq<string>, room: int, answers: seq<string>) {
    |Sent(answers)| <= room ==> after == before + answers
  }

  /** The bytes still queued, when those that have left are known by number only. */
  ghost function Queued(lines: seq<string>, left: int): int {
    |Sent(lines)| - left
  }

  lemma NothingKept(lines: seq<string>, room: int)
    ensures KeptAll(lines, lines, room, [])
  {
    assert lines + [] == lines;
  }

  /** When nothing leaves, what was kept from an empty queue on is no more than the queue holds. */
  lemma KeptFromEmpty(before: seq<string>, after: seq<string>, size: nat, left: int, answers: seq<string>)
    requires Queued(before, left) == 0 && Queued(after, left) <= size
    requires KeptAll(before, after, size, answers)
    ensures after == before + answers <==> |Sent(answers)| <= size
  {
    hide Sent;
    SentInParts(before, answers);
  }

  lemma KeptAllTwice(
    a: seq<string>, b: seq<string>, c: seq<string>, size: nat, left: int, leftLater: int,
    answers: seq<string>, more: seq<string>)
    requires left <= leftLater
    requires KeptAll(a, b, size - Queued(a, left), answers)
    requires KeptAll(b, c, size - Queued(b, leftLater), more)
    ensures KeptAll(a, c, size - Queued(a, left), answers + more)
  {
    hide Sent;
    SentInParts(answers, more);
    SentInParts(a, answers);
    if |Sent(answers + more)| <= size - Queued(a, left) {
      assert b == a + answers;
      assert a + answers + more == a + (answers + more);
    }
  }
}
