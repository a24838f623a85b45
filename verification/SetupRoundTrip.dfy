/** Whole setup lines: a configuration that is reported can be read back, and one that is sent is taken over. */
module SetupRoundTrip {
  import opened Types
  import opened ProductionConfig
  import opened PersistentConfig
  import opened FieldParser
  import opened MappingText
  import opened QuotedText
  import opened MappingPrinter
  import opened SetupFraming
  import opened GamepadReceiver
  import opened SetupProtocol
  import GamepadSafety

  /** What a setup host sends in front of a mapping it wants installed. */
  function SetPrefix(): string {
    "{" + BareKey("protocol") + "1," + BareKey("command") + ("\"" + "SET_CONFIG" + "\"") + ","
    + BareKey("schema") + "1," + BareKey("mapping") + "{"
  }

  function SetConfigLine(m: ProductionMapping): string {
    SetPrefix() + Text(Fields(m)) + "}}"
  }

  /** What the receiver puts in front of a mapping it reports. */
  function ReportPrefix(): string {
    "{" + BareKey("protocol") + "1," + BareKey("ok") + "true," + BareKey("result") + "{" + BareKey("schema") + "1,"
    + BareKey("mapping") + "{"
  }

  /** The same two texts cut at their quotes. */
  const SET_HEAD: seq<string> :=
    ["{", "protocol", ":1,", "command", ":", "SET_CONFIG", ",", "schema", ":1,", "mapping", ":{"]

  const REPORT_HEAD: seq<string> :=
    ["{", "protocol", ":1,", "ok", ":true,", "result", ":{", "schema", ":1,", "mapping", ":{"]

  lemma KeyPieces(before: string, name: string, after: string, rest: seq<string>)
    ensures Quoted([before, name, ":" + after] + rest) == before + BareKey(name) + Quoted([after] + rest)
  {
    if rest == [] {
      assert [before, name, ":" + after] + rest == [before] + ([name] + [":" + after]);
      OnePiece(name, [":" + after]);
      OnePiece(before, [name] + [":" + after]);
      assert [after] + rest == [after];
    } else {
      var tail := [":" + after] + rest;
      assert [before, name, ":" + after] + rest == [before] + ([name] + tail);
      OnePiece(name, tail);
      OnePiece(before, [name] + tail);
      OnePiece(":" + after, rest);
      OnePiece(after, rest);
    }
  }

  /** The same step behind text that is already read. */
  lemma MoreKeyPieces(read: string, before: string, name: string, after: string, rest: seq<string>)
    ensures read + Quoted([before, name, ":" + after] + rest) == read + before + BareKey(name) + Quoted([after] + rest)
  {
    hide Quoted, BareKey;
    KeyPieces(before, name, after, rest);
    assert read + (before + BareKey(name) + Quoted([after] + rest))
        == read + before + BareKey(name) + Quoted([after] + rest);
  }

  lemma MoreQuotedWord(read: string, word: string, rest: seq<string>)
    requires rest != []
    ensures read + Quoted(["", word] + rest) == read + ("\"" + word + "\"") + Quoted(rest)
  {
    hide Quoted;
    assert ["", word] + rest == [""] + ([word] + rest);
    OnePiece("", [word] + rest);
    OnePiece(word, rest);
    assert read + ("" + "\"" + (word + "\"" + Quoted(rest))) == read + ("\"" + word + "\"") + Quoted(rest);
  }

  lemma SetHeadText()
    ensures Quoted(SET_HEAD) == SetPrefix()
  {
    hide Quoted, BareKey;
    assert ":" + "1," == ":1," && ":" + "" == ":" && ":" + "{" == ":{";
    var read := "{" + BareKey("protocol");
    assert SET_HEAD == ["{", "protocol", ":" + "1,"] + SET_HEAD[3..];
    KeyPieces("{", "protocol", "1,", SET_HEAD[3..]);
    assert ["1,"] + SET_HEAD[3..] == ["1,", "command", ":" + ""] + SET_HEAD[5..];
    MoreKeyPieces(read, "1,", "command", "", SET_HEAD[5..]);
    read := read + "1," + BareKey("command");
    assert [""] + SET_HEAD[5..] == ["", "SET_CONFIG"] + SET_HEAD[6..];
    MoreQuotedWord(read, "SET_CONFIG", SET_HEAD[6..]);
    read := read + ("\"" + "SET_CONFIG" + "\"");
    assert SET_HEAD[6..] == [",", "schema", ":" + "1,"] + SET_HEAD[9..];
    MoreKeyPieces(read, ",", "schema", "1,", SET_HEAD[9..]);
    read := read + "," + BareKey("schema");
    assert ["1,"] + SET_HEAD[9..] == ["1,", "mapping", ":" + "{"] + [];
    MoreKeyPieces(read, "1,", "mapping", "{", []);
    assert ["{"] + [] == ["{"];
    LastPiece("{");
    assert Quoted(SET_HEAD) == read + "1," + BareKey("mapping") + "{";
  }

  lemma ReportHeadText()
    ensures Quoted(REPORT_HEAD) == ReportPrefix()
  {
    hide Quoted, BareKey;
    assert ":" + "1," == ":1," && ":" + "true," == ":true," && ":" + "{" == ":{";
    var read := "{" + BareKey("protocol");
    assert REPORT_HEAD == ["{", "protocol", ":" + "1,"] + REPORT_HEAD[3..];
    KeyPieces("{", "protocol", "1,", REPORT_HEAD[3..]);
    assert ["1,"] + REPORT_HEAD[3..] == ["1,", "ok", ":" + "true,"] + REPORT_HEAD[5..];
    MoreKeyPieces(read, "1,", "ok", "true,", REPORT_HEAD[5..]);
    read := read + "1," + BareKey("ok");
    assert ["true,"] + REPORT_HEAD[5..] == ["true,", "result", ":" + "{"] + REPORT_HEAD[7..];
    MoreKeyPieces(read, "true,", "result", "{", REPORT_HEAD[7..]);
    read := read + "true," + BareKey("result");
    assert ["{"] + REPORT_HEAD[7..] == ["{", "schema", ":" + "1,"] + REPORT_HEAD[9..];
    MoreKeyPieces(read, "{", "schema", "1,", REPORT_HEAD[9..]);
    read := read + "{" + BareKey("schema");
    assert ["1,"] + REPORT_HEAD[9..] == ["1,", "mapping", ":" + "{"] + [];
    MoreKeyPieces(read, "1,", "mapping", "{", []);
    assert ["{"] + [] == ["{"];
    LastPiece("{");
    assert Quoted(REPORT_HEAD) == read + "1," + BareKey("mapping") + "{";
  }

  lemma SetHeadSurrounds()
    ensures Surrounds(SET_HEAD, "}}")
  {
  }

  lemma ReportHeadSurrounds()
    ensures Surrounds(REPORT_HEAD, "}}}")
  {
  }

  /** A sent mapping is read as it was meant, whatever mapping is in force with the same precision control. */
  lemma SentMappingIsRead(m: ProductionMapping, current: ProductionMapping)
    requires IsValid(m) && current.precisionMask == m.precisionMask
    ensures ParseMapping(SetConfigLine(m), current) == Some(m)
  {
    hide ParseMapping, IsValid, Quoted, Surrounds, Text, Fields;
    SetHeadText();
    SetHeadSurrounds();
    PrintedIsRead(SET_HEAD, "}}", m, current);
  }

  /** A once-standing name followed by the number 1 and a comma reads as 1. */
  lemma OneIsRead(pieces: seq<string>, j: nat)
    requires QuoteFree(pieces) && 1 <= j < |pieces| - 1 && pieces[j + 1] == ":1,"
    requires forall k :: 0 <= k < |pieces| && k != j ==> pieces[k] != pieces[j]
    ensures ReadUnsigned(Quoted(pieces), BareKey(pieces[j])) == Some(1)
  {
    hide Quoted, QuoteBefore, BareKey, ReadUnsigned, FindOnce, Occurrences;
    var line, key, q := Quoted(pieces), BareKey(pieces[j]), QuoteBefore(pieces, j);
    assert pieces[j + 1] != "" && pieces[j + 1][0] == ':';
    OneNameOneKey(pieces, j);
    FoundBehind(line, key, q);
    BehindKey(pieces, j);
    var rest := pieces[j + 1..];
    StartsWithOne(rest);
    assert line[q + |key|..] == Quoted(rest)[1..];
    OneBehind(line, key, q + |key|);
  }

  lemma FoundBehind(line: string, key: string, q: nat)
    requires key != "" && Occurrences(line, key) == {q}
    ensures FindOnce(line, key) == Some(q + |key|)
  {
    FindOnceIsUnique(line, key);
    assert q in {FindOnce(line, key).value - |key|};
  }

  lemma StartsWithOne(pieces: seq<string>)
    requires pieces != [] && pieces[0] == ":1,"
    ensures |Quoted(pieces)| >= 3 && Quoted(pieces)[1..][..2] == "1,"
  {
  }

  lemma OneBehind(line: string, key: string, start: nat)
    requires key != "" && FindOnce(line, key) == Some(start)
    requires start + 2 <= |line| && line[start..][..2] == "1,"
    ensures ReadUnsigned(line, key) == Some(1)
  {
    assert line[start] == line[start..][..2][0] == '1' && line[start + 1] == line[start..][..2][1] == ',';
    assert DigitsEnd(line, start + 1) == start + 1;
    assert DigitsEnd(line, start) == start + 1;
    assert BlanksEnd(line, start + 1) == start + 1;
    assert line[start..start + 1] == "1";
    OneInDecimal();
  }

  lemma OneInDecimal()
    ensures Decimal("1") == 1
  {
    assert "1"[..0] == "";
    assert Decimal("") == 0;
  }

  /** The pieces of the line that installs a mapping. */
  function SetPieces(m: ProductionMapping): seq<string> {
    SET_HEAD + Pieces(Fields(m), "}}")
  }

  lemma SetLineIsPieces(m: ProductionMapping)
    ensures SetConfigLine(m) == Quoted(SetPieces(m))
  {
    hide Quoted, Text, Pieces, Fields;
    SetHeadText();
    LineIsPieces(SET_HEAD, Fields(m), "}}");
  }

  /** The head's own keys are used nowhere in the mapping either. */
  lemma HeadKeyStandsOnce(m: ProductionMapping, j: nat)
    requires IsValid(m) && j in {1, 3, 7}
    ensures QuoteFree(SetPieces(m))
    ensures forall k :: 0 <= k < |SetPieces(m)| && k != j ==> SetPieces(m)[k] != SET_HEAD[j]
  {
    hide IsValid, Fields, Pieces;
    var p := Pieces(Fields(m), "}}");
    forall i | 0 <= i < |p|
      ensures '"' !in p[i] && p[i] != SET_HEAD[j]
    {
      NamesAreNames(i / 4);
      ValuesAreValues(m, i / 4);
      PieceAt(Fields(m), "}}", i / 4);
      NameIsNoHeadKey(i / 4, j);
      assert i == 4 * (i / 4) || i == 4 * (i / 4) + 1 || i == 4 * (i / 4) + 2 || i == 4 * (i / 4) + 3;
    }
    HeadKeysDiffer(j);
    assert forall i :: 0 <= i < |SetPieces(m)| ==> SetPieces(m)[i] == if i < 11 then SET_HEAD[i] else p[i - 11];
  }

  lemma NameIsNoHeadKey(k: nat, j: nat)
    requires k < 8 && j in {1, 3, 7}
    ensures FIELD_NAMES[k] != SET_HEAD[j]
  {
  }

  lemma HeadKeysDiffer(j: nat)
    requires j in {1, 3, 7}
    ensures forall k :: 0 <= k < 11 ==> '"' !in SET_HEAD[k] && (k != j ==> SET_HEAD[k] != SET_HEAD[j])
  {
  }

  lemma CommandWord(m: ProductionMapping)
    requires IsValid(m)
    ensures CommandOf(SetConfigLine(m)) == Some("SET_CONFIG") && SpeaksSchema(SetConfigLine(m))
  {
    hide IsValid, Fields, Pieces, Quoted, ReadUnsigned, ReadString, BareKey, Text, Says;
    var p := SetPieces(m);
    assert p[..11] == SET_HEAD;
    assert forall k :: 0 <= k < 11 ==> p[k] == p[..11][k];
    SetLineIsPieces(m);
    HeadKeyStandsOnce(m, 1);
    OneIsRead(p, 1);
    HeadKeyStandsOnce(m, 7);
    OneIsRead(p, 7);
    HeadKeyStandsOnce(m, 3);
    PiecesSay(p, 3);
    KeyIsBareKey("command");
    ReadStringIsLiteral(Quoted(p), Key("command"), 32, "SET_CONFIG");
  }

  lemma KeyIsBareKey(name: string)
    ensures Key(name) == BareKey(name) + "\""
  {
  }

  /** The line a host sends for a valid mapping is a request to save exactly that mapping. */
  lemma SentLineIsUnderstood(s: State, m: ProductionMapping, env: StoreEnv)
    requires IsValid(m) && s.mapping.precisionMask == m.precisionMask
    ensures RequestIn(s, SetConfigLine(m), env) == Some(SetConfig(m, env))
  {
    hide IsValid, SetConfigLine, ParseMapping, CommandOf, SpeaksSchema;
    CommandWord(m);
    SentMappingIsRead(m, s.mapping);
  }

  lemma CleanParts(a: string, b: string)
    ensures Clean(a + b) <==> Clean(a) && Clean(b)
  {
    assert forall k :: 0 <= k < |a + b| ==> (a + b)[k] == if k < |a| then a[k] else b[k - |a|];
    if Clean(a + b) {
      assert forall k :: 0 <= k < |a| ==> a[k] == (a + b)[k];
      assert forall k :: 0 <= k < |b| ==> b[k] == (a + b)[|a| + k];
    }
  }

  lemma ControlNameIsClean(mask: bv32)
    ensures Clean(ControlName(mask))
  {
  }

  lemma ActionNameIsClean(action: ButtonAction)
    ensures Clean(ActionName(action))
  {
  }

  lemma NameIsClean(k: nat)
    requires k < 8
    ensures Clean(FIELD_NAMES[k]) && Clean(MASSO_KEY)
  {
  }

  lemma FieldIsClean(m: ProductionMapping, k: nat)
    requires IsValid(m) && k < 8
    ensures Clean(Entry(Fields(m)[k])) && |Entry(Fields(m)[k])| <= 34
  {
    hide Clean, IsValid;
    var f := Fields(m)[k];
    NamesAreNames(k);
    ValuesAreValues(m, k);
    NameIsClean(k);
    ControlNameIsClean(m.deadmanMask);
    ControlNameIsClean(m.continuousMask);
    ControlNameIsClean(m.resolutionMask);
    ActionNameIsClean(m.faceA);
    ActionNameIsClean(m.faceB);
    ActionNameIsClean(m.faceX);
    ActionNameIsClean(m.faceY);
    hide ControlName, ActionName;
    assert Clean(f.value);
    hide Fields;
    EntryIsClean(f);
  }

  lemma EntryIsClean(f: Field)
    requires Clean(f.name) && Clean(f.value)
    ensures Clean(Entry(f)) && |Entry(f)| == |f.name| + |f.value| + 5
  {
    PunctuationIsClean();
    hide Clean;
    CleanParts("\"", f.name);
    CleanParts("\"" + f.name, "\":\"");
    CleanParts("\"" + f.name + "\":\"", f.value);
    CleanParts("\"" + f.name + "\":\"" + f.value, "\"");
  }

  lemma PunctuationIsClean()
    ensures Clean("\"") && Clean("\":\"") && Clean(",") && Clean("\":") && Clean("{") && Clean("}") && Clean("}}")
    ensures Clean("1,") && Clean("\"" + "SET_CONFIG" + "\"")
    ensures Clean("protocol") && Clean("command") && Clean("schema") && Clean("mapping")
  {
  }

  lemma {:induction false} TextIsClean(fields: seq<Field>)
    requires fields != []
    requires forall k :: 0 <= k < |fields| ==> Clean(Entry(fields[k])) && |Entry(fields[k])| <= 34
    ensures Clean(Text(fields)) && |Text(fields)| < 35 * |fields|
  {
    PunctuationIsClean();
    hide Clean, Entry;
    if |fields| > 1 {
      TextIsClean(fields[1..]);
      CleanParts(Entry(fields[0]), ",");
      CleanParts(Entry(fields[0]) + ",", Text(fields[1..]));
    }
  }

  lemma KeyIsClean(before: string, name: string)
    requires Clean(before) && Clean(name)
    ensures Clean(before + BareKey(name)) && |before + BareKey(name)| == |before| + |name| + 3
  {
    PunctuationIsClean();
    hide Clean;
    CleanParts("\"", name);
    CleanParts("\"" + name, "\":");
    CleanParts(before, BareKey(name));
  }

  lemma SetPrefixIsClean()
    ensures Clean(SetPrefix()) && |SetPrefix()| == 59
  {
    PunctuationIsClean();
    hide Clean, BareKey;
    var p1 := "{" + BareKey("protocol");
    KeyIsClean("{", "protocol");
    CleanParts(p1, "1,");
    KeyIsClean(p1 + "1,", "command");
    var p2 := p1 + "1," + BareKey("command");
    var word := "\"" + "SET_CONFIG" + "\"";
    CleanParts(p2, word);
    CleanParts(p2 + word, ",");
    KeyIsClean(p2 + word + ",", "schema");
    var p3 := p2 + word + "," + BareKey("schema");
    CleanParts(p3, "1,");
    KeyIsClean(p3 + "1,", "mapping");
    CleanParts(p3 + "1," + BareKey("mapping"), "{");
  }

  /** The line passes the framing untouched: no control byte, and well within the line limit. */
  lemma SetLineIsClean(m: ProductionMapping)
    requires IsValid(m)
    ensures Clean(SetConfigLine(m)) && 0 < |SetConfigLine(m)| < LINE_LIMIT
  {
    PunctuationIsClean();
    hide Clean, IsValid, Fields, Entry, Text, SetPrefix;
    forall k | 0 <= k < 8
      ensures Clean(Entry(Fields(m)[k])) && |Entry(Fields(m)[k])| <= 34
    {
      FieldIsClean(m, k);
    }
    TextIsClean(Fields(m));
    SetPrefixIsClean();
    CleanParts(SetPrefix(), Text(Fields(m)));
    CleanParts(SetPrefix() + Text(Fields(m)), "}}");
  }

  /** The line makes exactly one frame. */
  lemma SentLineIsOneFrame(m: ProductionMapping)
    requires IsValid(m)
    ensures FramesOf(SetConfigLine(m) + "\n") == [Line(SetConfigLine(m))] && '\n' !in SetConfigLine(m)
  {
    hide IsValid, SetConfigLine, FramesOf, Clean;
    SetLineIsClean(m);
    CleanLineIsOneFrame(SetConfigLine(m));
    NoLineFeedInside(SetConfigLine(m));
  }

  lemma CleanLineIsOneFrame(line: string)
    requires Clean(line) && 0 < |line| <= LINE_LIMIT
    ensures FramesOf(line + "\n") == [Line(line)]
  {
    hide FramesOf, Printable, Spoiled;
    CleanLineIsKept(line);
    NoLineFeedInside(line);
    FramesSplitAtLineFeeds(line, "");
    NoLineFeedNoFrame("");
    assert line + "\n" + "" == line + "\n";
  }

  lemma NoLineFeedInside(text: string)
    requires Clean(text)
    ensures '\n' !in text
  {
  }

  lemma ReportText(m: ProductionMapping)
    ensures Framed(Success(ConfigBody(m))) == ReportPrefix() + Text(Fields(m)) + "}}}"
  {
    hide BareKey, Text, Fields;
    var text, head := Text(Fields(m)), BareKey("schema") + "1," + BareKey("mapping") + "{";
    var front := "{" + BareKey("protocol") + "1," + BareKey("ok") + "true" + ",";
    var result := BareKey("result") + "{";
    assert Framed(Success(ConfigBody(m))) == front + (result + (head + text + "}") + "}") + "}";
    assert "true" + "," == "true,";
    assert ReportPrefix() == front + result + head by {
      assert front == "{" + BareKey("protocol") + "1," + BareKey("ok") + "true,";
    }
    Nested(front, result, head, text);
  }

  lemma Nested(front: string, result: string, head: string, text: string)
    ensures front + (result + (head + text + "}") + "}") + "}" == front + result + head + text + "}}}"
  {
  }

  lemma ReportPrefixLength()
    ensures |ReportPrefix()| == 56
  {
  }

  lemma TextFits(m: ProductionMapping)
    requires IsValid(m)
    ensures |Text(Fields(m))| < 280
  {
    hide IsValid, Fields, Text, Entry, Clean;
    forall k | 0 <= k < 8
      ensures Clean(Entry(Fields(m)[k])) && |Entry(Fields(m)[k])| <= 34
    {
      FieldIsClean(m, k);
    }
    TextIsClean(Fields(m));
  }

  /** The mapping fits the body buffer. */
  lemma BodyFits(m: ProductionMapping)
    requires IsValid(m)
    ensures |Success(ConfigBody(m)).body| <= BODY_LIMIT
  {
    hide IsValid, Text, Fields;
    TextFits(m);
  }

  /** The answer to GET_CONFIG is cut by neither buffer, and reading it gives back the mapping in force. */
  lemma ReportedConfigurationIsRead(
    m: ProductionMapping, sequence: uint32, line: string, ok: bool, id: Identity, current: ProductionMapping)
    requires IsValid(m) && current.precisionMask == m.precisionMask
    requires CommandOf(line) == Some("GET_CONFIG")
    ensures var reply := ReplyTo(m, sequence, line, ok, id);
            && reply == Success(ConfigBody(m)) && Response(reply) == Framed(reply)
            && ParseMapping(Response(reply), current) == Some(m)
  {
    hide ParseMapping, IsValid, Quoted, Surrounds, Text, Fields, ReportPrefix, SpeaksSchema, Framed, ConfigBody;
    GetConfigReply(m, sequence, line, ok, id);
    ReportText(m);
    ReportPrefixLength();
    TextFits(m);
    ReportHeadText();
    ReportHeadSurrounds();
    PrintedIsRead(REPORT_HEAD, "}}}", m, current);
  }

  lemma GetConfigReply(m: ProductionMapping, sequence: uint32, line: string, ok: bool, id: Identity)
    requires IsValid(m) && CommandOf(line) == Some("GET_CONFIG")
    ensures ReplyTo(m, sequence, line, ok, id) == Success(ConfigBody(m))
  {
    hide SpeaksSchema, ParseMapping, ConfigBody, ReadString, ReadUnsigned, Success;
    BodyFits(m);
    PrintedWhenItFits(Success(ConfigBody(m)));
  }

  lemma PrintedWhenItFits(r: Reply)
    requires |r.body| <= BODY_LIMIT
    ensures Printed(r) == r
  {
  }

  /** The mapping in force changes only to a valid one that the line spelled out and that flash now holds. */
  lemma MappingChangesAsTold(s: State, text: string, now: uint32, env: StoreEnv)
    requires Handle(s, Line(text), now, env).mapping != s.mapping
    ensures var m := Handle(s, Line(text), now, env).mapping;
            && CommandOf(text) == Some("SET_CONFIG") && SpeaksSchema(text)
            && IsValid(m) && SaysMapping(text, m, s.mapping)
            && Store(s.store, m, env).ok && Handle(s, Line(text), now, env).store == Store(s.store, m, env).state
  {
    hide ParseMapping, IsValid, SaysMapping, Store, StoreAddress, CommandOf, SpeaksSchema, AddressText, ReadString;
    match LineRequest(s.mapping, s.pairing.candidate, text, env) {
      case Some(SetConfig(m, _)) => ParsesExactly(text, s.mapping, m);
      case _ =>
    }
  }

  /** The stored controller changes only on CONFIRM_PAIRING, and then to the candidate being tried. */
  lemma AddressChangesAsTold(s: State, text: string, now: uint32, env: StoreEnv)
    requires Handle(s, Line(text), now, env).store.address != s.store.address
    ensures CommandOf(text) == Some("CONFIRM_PAIRING") && Commits(s, env)
    ensures Handle(s, Line(text), now, env).store.address == s.pairing.active.text
  {
    hide ParseMapping, IsValid, Store, StoreAddress, CommandOf, SpeaksSchema, AddressText, ReadString;
    match LineRequest(s.mapping, s.pairing.candidate, text, env) {
      case Some(SetConfig(m, _)) => GamepadSafety.StoreKeepsAddress(s.store, m, env);
      case Some(Confirm(_)) =>
        if MayCommit(s) {
          GamepadSafety.StoreAddressCommits(s.store, s.mapping, s.pairing.active.text.value, env);
        }
      case _ =>
    }
  }
}
