/** What one setup line asks of the receiver, and what is answered. */
module SetupProtocol {
  import opened Types
  import opened MassoKeyboard
  import opened ProductionConfig
  import opened RecordCodec
  import opened PersistentConfig
  import opened FieldParser
  import opened MappingText
  import opened QuotedText
  import opened MappingPrinter
  import opened SetupFraming
  import opened GamepadReceiver

  function HexDigit(n: nat): char
    requires n < 16
  {
    "0123456789ABCDEF"[n]
  }

  /** The low `bytes` bytes of an address, high byte first, with colons between them. */
  function HexText(a: nat, bytes: nat): (text: string)
    requires bytes > 0
    ensures |text| == 3 * bytes - 1
  {
    if bytes == 1 then LowText(a) else HexText(a / 256, bytes - 1) + ":" + LowText(a)
  }

  function AddressText(a: Address): string {
    HexText(a, 6)
  }

  lemma HexDigitIsInjective(n: nat, k: nat)
    requires n < 16 && k < 16 && HexDigit(n) == HexDigit(k)
    ensures n == k
  {
  }

  /** A byte is its two digits. */
  lemma TwoDigits(a: nat)
    ensures a == 256 * (a / 256) + 16 * (a / 16 % 16) + a % 16
  {
  }

  function LowText(a: nat): (text: string)
    ensures |text| == 2
  {
    [HexDigit(a / 16 % 16), HexDigit(a % 16)]
  }

  lemma LowTextIsInjective(a: nat, b: nat)
    requires LowText(a) == LowText(b)
    ensures a - 256 * (a / 256) == b - 256 * (b / 256)
  {
    hide HexDigit;
    assert LowText(a)[0] == LowText(b)[0] && LowText(a)[1] == LowText(b)[1];
    HexDigitIsInjective(a / 16 % 16, b / 16 % 16);
    HexDigitIsInjective(a % 16, b % 16);
    TwoDigits(a);
    TwoDigits(b);
  }

  lemma {:induction false} HexTextIsInjective(a: nat, b: nat, bytes: nat)
    requires bytes > 0 && HexText(a, bytes) == HexText(b, bytes)
    requires a < Range(bytes) && b < Range(bytes)
    ensures a == b
  {
    hide LowText;
    if bytes == 1 {
      LowTextIsInjective(a, b);
    } else {
      var n := 3 * bytes - 1;
      var x, y := HexText(a / 256, bytes - 1), HexText(b / 256, bytes - 1);
      EndsApart(x + ":", LowText(a), y + ":", LowText(b));
      assert x == (x + ":")[..n - 3] == (y + ":")[..n - 3] == y;
      HexTextIsInjective(a / 256, b / 256, bytes - 1);
      LowTextIsInjective(a, b);
    }
  }

  lemma EndsApart(x: string, u: string, y: string, v: string)
    requires x + u == y + v && |u| == |v|
    ensures x == y && u == v
  {
    assert x == (x + u)[..|x|] && y == (y + v)[..|y|];
    assert u == (x + u)[|x|..] && v == (y + v)[|y|..];
  }

  function Range(bytes: nat): nat {
    if bytes == 0 then 1 else 256 * Range(bytes - 1)
  }

  /** Comparing address texts is comparing addresses. */
  lemma AddressTextIsInjective(a: Address, b: Address)
    ensures AddressText(a) == AddressText(b) <==> a == b
  {
    assert Range(3) == 0x100_0000;
    assert Range(6) == 0x1_0000_0000_0000;
    if AddressText(a) == AddressText(b) {
      HexTextIsInjective(a, b, 6);
    }
  }

  predicate SpeaksProtocol(line: string) {
    ReadUnsigned(line, BareKey("protocol")) == Some(1)
  }

  predicate SpeaksSchema(line: string) {
    ReadUnsigned(line, BareKey("schema")) == Some(1)
  }

  /** The command word of a line in the supported protocol. */
  function CommandOf(line: string): Option<string> {
    if SpeaksProtocol(line) then ReadString(line, Key("command"), 32) else None
  }

  /** The line names exactly the candidate found by the scan. */
  predicate NamesCandidate(candidate: Option<Address>, line: string) {
    candidate.Some? && ReadString(line, Key("address"), 24) == Some(AddressText(candidate.value))
  }

  /** The receiver command a line amounts to, if any; `env` is how flash will answer it. */
  function LineRequest(
    mapping: ProductionMapping, candidate: Option<Address>, line: string, env: StoreEnv): Option<Request>
  {
    match CommandOf(line)
    case None => None
    case Some(command) =>
      if command == "SET_CONFIG" then
        if !SpeaksSchema(line) then None
        else
          match ParseMapping(line, mapping)
          case None => None
          case Some(m) => Some(SetConfig(m, env))
      else if command == "START_SCAN" then Some(StartScanning)
      else if command == "PAIR_CANDIDATE" then
        if NamesCandidate(candidate, line) then Some(PairCandidate(candidate.value)) else None
      else if command == "CONFIRM_PAIRING" then Some(Confirm(env))
      else if command == "CANCEL_PAIRING" then Some(Cancel)
      else None
  }

  datatype Reply = Reply(ok: bool, body: string)

  /** Texts about the device itself: its identity for a given configuration sequence, and its CNC profiles. */
  datatype Identity = Identity(info: uint32 -> string, profiles: Option<string>)

  function Failure(code: string): Reply {
    Reply(false, Key("error") + code + "\"")
  }

  function Success(result: string): Reply {
    Reply(true, BareKey("result") + "{" + result + "}")
  }

  const BODY_LIMIT := 699

  /** An answer whose body went through the body buffer, cut to it. */
  function Printed(r: Reply): Reply {
    r.(body := Take(r.body, BODY_LIMIT))
  }

  function ConfigBody(m: ProductionMapping): string {
    BareKey("schema") + "1," + BareKey("mapping") + "{" + Text(Fields(m)) + "}"
  }

  /** The answer to a line, given whether its command succeeded. */
  function ReplyTo(mapping: ProductionMapping, sequence: uint32, line: string, ok: bool, id: Identity): Reply {
    if !SpeaksProtocol(line) then Failure("UNSUPPORTED_PROTOCOL")
    else
      match CommandOf(line)
      case None => Failure("INVALID_REQUEST")
      case Some(command) =>
        if command == "GET_INFO" then Printed(Reply(true, id.info(sequence)))
        else if command == "GET_CONFIG" then
          if mapping.cncProfile == MASSO_G3_TOUCH_5_13 then Printed(Success(ConfigBody(mapping)))
          else Failure("UNSUPPORTED_CNC_PROFILE")
        else if command == "GET_CNC_PROFILES" then
          if id.profiles.Some? then Reply(true, id.profiles.value) else Failure("PROFILE_LIST_TOO_LARGE")
        else if command == "SET_CONFIG" then
          if !SpeaksSchema(line) then Failure("UNSUPPORTED_SCHEMA")
          else if ParseMapping(line, mapping).None? then Failure("INVALID_MAPPING")
          else if ok then Success("\"saved\":true") else Failure("CONFIG_STORE_FAILED")
        else if command == "START_SCAN" then Success("\"scanning\":true")
        else if command == "PAIR_CANDIDATE" then
          if ok then Success("\"connecting\":true") else Failure("PAIR_CANDIDATE_REJECTED")
        else if command == "CONFIRM_PAIRING" then
          if ok then Success("\"paired\":true") else Failure("PAIRING_NOT_CONFIRMED")
        else if command == "CANCEL_PAIRING" then Success("\"cancelled\":true")
        else Failure("UNKNOWN_COMMAND")
  }

  const RESPONSE_LIMIT := 895

  function Framed(r: Reply): string {
    "{" + BareKey("protocol") + "1," + BareKey("ok") + (if r.ok then "true" else "false") + "," + r.body + "}"
  }

  /** The line that goes back, cut to the response buffer. */
  function Response(r: Reply): (line: string)
    ensures |line| <= RESPONSE_LIMIT
  {
    Take(Framed(r), RESPONSE_LIMIT)
  }

  /** The state change announced while a pairing command is carried out. */
  function NoticeOf(request: Request): Option<string> {
    match request
    case PairCandidate(_) => Some(Notice("awaiting_physical_confirmation"))
    case Confirm(_) => Some(Notice("saved"))
    case SetConfig(_, _) => None
    case StartScanning => None
    case Cancel => None
  }

  function Notice(state: string): string {
    "{" + BareKey("protocol") + "1," + Key("event") + "PAIRING_STATE\"," + Key("state") + state + "\"}"
  }

  function DigitsOf(n: nat): string {
    var last := ["0123456789"[n % 10]];
    if n < 10 then last else DigitsOf(n / 10) + last
  }

  function IntText(n: int): string {
    if n < 0 then "-" + DigitsOf(-n) else DigitsOf(n)
  }

  const EVENT_LIMIT := 299

  /** The announcement of a device the scan accepts: a fixed name, its address and its signal strength. */
  function ScanResult(found: Inquiry): string {
    var name := if NamedLite2(found) then LITE2_NAME else "8BitDo Lite 2 (D mode)";
    var rssi := if found.rssi.Some? then found.rssi.value else -127;
    Take("{" + BareKey("protocol") + "1," + Key("event") + "SCAN_RESULT\"," + BareKey("candidate") + "{"
         + Key("name") + name + "\"," + Key("address") + AddressText(found.address) + "\","
         + BareKey("rssi") + IntText(rssi) + "}}", EVENT_LIMIT)
  }

  /** What an event of the radio or of the controller announces to an open setup port. */
  function EventNotice(before: Pairing, after: Pairing, e: Event): Option<string> {
    match e
    case Report(_, _, _) =>
      if !before.chordConfirmed && after.chordConfirmed then Some(Notice("physical_confirmation_complete")) else None
    case InquiryResult(found, _) =>
      if before.scanActive && IsCandidate(found) then Some(ScanResult(found)) else None
    case InquiryComplete(_) => Some(Notice("scan_complete"))
    case ScanTimer(_, t) =>
      if before.scanRequested && Elapsed(Clock(t), before.scanRequestedMs) > SCAN_GIVE_UP_MS then
        Some(Notice("scan_failed"))
      else None
    case DescriptorAvailable(supported, _) =>
      if !supported && before.selected then Some(Notice("unsupported_hid_descriptor")) else None
    case IncomingConnection(_, _, _, _) => None
    case ConnectTimer(_, _) => None
    case ConnectionOpened(_, _, _) => None
    case ConnectionLost(_, _) => None
    case ConfirmationRequest(_, _, _) => None
    case SetupPass(_, _, _) => None
    case OutputPass(_, _) => None
  }

  /** Announcements are made only while the setup port is open. */
  function EventNotices(s: State, e: Event): seq<string> {
    var notice := EventNotice(s.pairing, Step(s, e).pairing, e);
    if s.setup.active && notice.Some? then [notice.value] else []
  }

  /** An announcement, if there is one, goes ahead of the response. */
  function Lines(announced: Option<string>, reply: Reply): seq<string> {
    if announced.Some? then [announced.value, Response(reply)] else [Response(reply)]
  }

  function RequestIn(s: State, line: string, env: StoreEnv): Option<Request> {
    LineRequest(s.mapping, s.pairing.candidate, line, env)
  }

  /** The lines a command is answered with: a pairing announcement where there is one, then the response. */
  function Answers(s: State, line: string, env: StoreEnv, id: Identity): seq<string> {
    var request := RequestIn(s, line, env);
    var ok := request.Some? && Succeeds(s, request.value);
    Lines(if ok then NoticeOf(request.value) else None, ReplyTo(s.mapping, s.store.sequence, line, ok, id))
  }

  function Handle(s: State, frame: Frame, now: uint32, env: StoreEnv): State {
    match frame
    case Rejected => s
    case Line(text) =>
      match RequestIn(s, text, env)
      case None => s
      case Some(request) => Execute(s, request, now)
  }

  /** Carrying out frames in order; `envs[k]` is how flash answers the k-th. */
  function HandleAll(s: State, frames: seq<Frame>, now: uint32, envs: seq<StoreEnv>): State
    requires |frames| <= |envs|
  {
    if frames == [] then s
    else
      var n := |frames| - 1;
      Handle(HandleAll(s, frames[..n], now, envs), frames[n], now, envs[n])
  }

  /** The receiver commands those frames amount to. */
  function Requests(s: State, frames: seq<Frame>, now: uint32, envs: seq<StoreEnv>): seq<Request>
    requires |frames| <= |envs|
  {
    if frames == [] then []
    else
      var n := |frames| - 1;
      Requests(s, frames[..n], now, envs)
      + match frames[n]
        case Rejected => []
        case Line(text) =>
          match RequestIn(HandleAll(s, frames[..n], now, envs), text, envs[n])
          case None => []
          case Some(request) => [request]
  }

  lemma {:induction false} FramesAreRequests(s: State, frames: seq<Frame>, now: uint32, envs: seq<StoreEnv>)
    requires |frames| <= |envs|
    ensures HandleAll(s, frames, now, envs) == ExecuteAll(s, Requests(s, frames, now, envs), now)
  {
    hide RequestIn, Execute;
    if frames != [] {
      var n := |frames| - 1;
      FramesAreRequests(s, frames[..n], now, envs);
      var before, all := Requests(s, frames[..n], now, envs), Requests(s, frames, now, envs);
      if all != before {
        assert all[..|all| - 1] == before;
      }
    }
  }

  lemma HandleOneMore(s: State, frames: seq<Frame>, frame: Frame, now: uint32, envs: seq<StoreEnv>)
    requires |frames| < |envs|
    ensures HandleAll(s, frames + [frame], now, envs)
            == Handle(HandleAll(s, frames, now, envs), frame, now, envs[|frames|])
  {
    hide Handle;
    assert (frames + [frame])[..|frames|] == frames;
  }

  lemma OneFrame(s: State, frame: Frame, now: uint32, env: StoreEnv)
    ensures HandleAll(s, [frame], now, [env]) == Handle(s, frame, now, env)
  {
    hide Handle;
    assert [frame][..0] == [];
  }

  lemma RefusedChangesNothing(s: State, now: uint32, env: StoreEnv)
    ensures Handle(s, Rejected, now, env) == s
  {
  }

  lemma NothingToHandle(s: State, now: uint32, envs: seq<StoreEnv>)
    ensures HandleAll(s, [], now, envs) == s && HandleAll(s, [], now, []) == s
  {
  }

  lemma HandleNext(s: State, frames: seq<Frame>, last: seq<Frame>, now: uint32, envs: seq<StoreEnv>)
    requires |frames| < |envs| && |last| <= 1
    ensures HandleAll(s, frames + last, now, envs)
            == HandleAll(HandleAll(s, frames, now, envs), last, now, [envs[|frames|]])
  {
    hide Handle, HandleAll;
    if last == [] {
      assert frames + last == frames;
      NothingToHandle(HandleAll(s, frames, now, envs), now, envs);
      NothingToHandle(HandleAll(s, frames, now, envs), now, [envs[|frames|]]);
    } else {
      assert last == [last[0]];
      HandleOneMore(s, frames, last[0], now, envs);
      OneFrame(HandleAll(s, frames, now, envs), last[0], now, envs[|frames|]);
    }
  }

  const REFUSAL: Reply := Failure("FRAME_TOO_LARGE")

  function FrameAnswers(s: State, frame: Frame, env: StoreEnv, id: Identity): seq<string> {
    match frame
    case Rejected => Lines(None, REFUSAL)
    case Line(text) => Answers(s, text, env, id)
  }

  /** Everything a run of frames is answered with. */
  function AllAnswers(s: State, frames: seq<Frame>, now: uint32, envs: seq<StoreEnv>, id: Identity): seq<string>
    requires |frames| <= |envs|
  {
    if frames == [] then []
    else
      var n := |frames| - 1;
      AllAnswers(s, frames[..n], now, envs, id)
      + FrameAnswers(HandleAll(s, frames[..n], now, envs), frames[n], envs[n], id)
  }

  lemma NothingToAnswer(s: State, now: uint32, envs: seq<StoreEnv>, id: Identity)
    ensures AllAnswers(s, [], now, envs, id) == []
  {
  }

  lemma OneAnswered(s: State, frame: Frame, now: uint32, env: StoreEnv, id: Identity)
    ensures AllAnswers(s, [frame], now, [env], id) == FrameAnswers(s, frame, env, id)
  {
    hide FrameAnswers, HandleAll;
    assert [frame][..0] == [];
    NothingToHandle(s, now, [env]);
  }

  lemma AnswerNext(
    s: State, frames: seq<Frame>, last: seq<Frame>, now: uint32, envs: seq<StoreEnv>, id: Identity)
    requires |frames| < |envs| && |last| <= 1
    ensures AllAnswers(s, frames + last, now, envs, id)
            == AllAnswers(s, frames, now, envs, id)
               + AllAnswers(HandleAll(s, frames, now, envs), last, now, [envs[|frames|]], id)
  {
    hide FrameAnswers, HandleAll;
    if last == [] {
      assert frames + last == frames;
    } else {
      assert last == [last[0]] && (frames + last)[..|frames|] == frames;
      OneAnswered(HandleAll(s, frames, now, envs), last[0], now, envs[|frames|], id);
    }
  }

  lemma EventKeepsSetup(s: State, e: Event)
    requires !e.SetupPass?
    ensures Step(s, e).setup == s.setup
  {
    hide Elapsed, ReadReport, IsCandidate;
  }

  lemma Sixteenths(q: nat, r: nat)
    requires r < 16
    ensures (16 * q + r) / 16 == q && (16 * q + r) % 16 == r
  {
  }

  lemma LowDigits(high: nat, low: nat)
    requires low < 256
    ensures (256 * high + low) / 256 == high && (256 * high + low) % 16 == low % 16
    ensures (256 * high + low) / 16 % 16 == low / 16 % 16
  {
    var q, r := low / 16, low % 16;
    assert 256 * high + low == 16 * (16 * high + q) + r;
    Sixteenths(16 * high + q, r);
    Sixteenths(high, q);
  }

  /** The low byte goes last, behind a colon. */
  lemma AddressTextIsBytewise(high: nat, low: nat, bytes: nat)
    requires bytes > 0 && low < 256
    ensures HexText(256 * high + low, bytes + 1) == HexText(high, bytes) + ":" + HexText(low, 1)
  {
    hide HexDigit;
    LowDigits(high, low);
  }

  /** Upper-case digits, high digit first. */
  lemma BytesAreUpperHex()
    ensures HexText(0x4f, 1) == "4F" && HexText(0x07, 1) == "07" && HexText(0xab, 1) == "AB"
  {
    hide HexDigit;
    SampleDigits();
  }

  lemma SampleDigits()
    ensures HexDigit(0) == '0' && HexDigit(4) == '4' && HexDigit(7) == '7'
    ensures HexDigit(10) == 'A' && HexDigit(11) == 'B' && HexDigit(15) == 'F'
  {
  }

  /** The command word is what the line says, in protocol 1, behind a key that stands once; it is below 32 bytes. */
  lemma CommandIsLiteral(text: string, word: string)
    ensures CommandOf(text) == Some(word) <==>
              && ReadUnsigned(text, BareKey("protocol")) == Some(1)
              && Says(text, Key("command"), word) && '"' !in word && 0 < |word| < 32
  {
    hide ReadUnsigned, ReadString, Says, BareKey, Key;
    ReadStringIsLiteral(text, Key("command"), 32, word);
  }

  /** What each command word does to the receiver; anything else does nothing. */
  lemma LineIsObeyed(s: State, text: string, now: uint32, env: StoreEnv)
    ensures var command, after := CommandOf(text), Handle(s, Line(text), now, env);
            && (command == Some("START_SCAN") ==> after == StartScan(s, now))
            && (command == Some("CANCEL_PAIRING") ==> after == CancelPairing(s))
            && (command == Some("CONFIRM_PAIRING") ==> after == ConfirmPairing(s, env))
            && (command == Some("PAIR_CANDIDATE") ==>
                  after == if s.pairing.candidate.Some?
                              && ReadString(text, Key("address"), 24) == Some(AddressText(s.pairing.candidate.value))
                           then SelectCandidate(s, s.pairing.candidate.value) else s)
            && (command == Some("SET_CONFIG") ==>
                  after == if ReadUnsigned(text, BareKey("schema")) == Some(1) && ParseMapping(text, s.mapping).Some?
                           then Execute(s, SetConfig(ParseMapping(text, s.mapping).value, env), now) else s)
            && (command.None? ||
                command.value !in {"START_SCAN", "CANCEL_PAIRING", "CONFIRM_PAIRING", "PAIR_CANDIDATE", "SET_CONFIG"} ==>
                  after == s)
  {
    hide CommandOf, ParseMapping, StartScan, CancelPairing, ConfirmPairing, SelectCandidate, Store, ReadString,
      ReadUnsigned, AddressText, Key, BareKey;
  }

  /** An answer says ok exactly when a query is answered or a command has succeeded. */
  lemma ReplyIsTruthful(m: ProductionMapping, sequence: uint32, text: string, ok: bool, id: Identity)
    ensures var command, reply := CommandOf(text), ReplyTo(m, sequence, text, ok, id);
            reply.ok <==>
              || command == Some("GET_INFO")
              || (command == Some("GET_CONFIG") && m.cncProfile == 0)
              || (command == Some("GET_CNC_PROFILES") && id.profiles.Some?)
              || (command == Some("SET_CONFIG") && SpeaksSchema(text) && ParseMapping(text, m).Some? && ok)
              || command == Some("START_SCAN") || command == Some("CANCEL_PAIRING")
              || ((command == Some("PAIR_CANDIDATE") || command == Some("CONFIRM_PAIRING")) && ok)
  {
    hide SpeaksSchema, ParseMapping, ReadString, ReadUnsigned, ConfigBody;
  }

  /** Why a refused line was refused. */
  lemma RefusalIsTruthful(m: ProductionMapping, sequence: uint32, text: string, ok: bool, id: Identity)
    requires !ReplyTo(m, sequence, text, ok, id).ok
    ensures var command, reply := CommandOf(text), ReplyTo(m, sequence, text, ok, id);
            reply == if ReadUnsigned(text, BareKey("protocol")) != Some(1) then Failure("UNSUPPORTED_PROTOCOL")
                     else if command.None? then Failure("INVALID_REQUEST")
                     else if command.value == "GET_CONFIG" then Failure("UNSUPPORTED_CNC_PROFILE")
                     else if command.value == "GET_CNC_PROFILES" then Failure("PROFILE_LIST_TOO_LARGE")
                     else if command.value == "SET_CONFIG" then
                       if ReadUnsigned(text, BareKey("schema")) != Some(1) then Failure("UNSUPPORTED_SCHEMA")
                       else if ParseMapping(text, m).None? then Failure("INVALID_MAPPING")
                       else Failure("CONFIG_STORE_FAILED")
                     else if command.value == "PAIR_CANDIDATE" then Failure("PAIR_CANDIDATE_REJECTED")
                     else if command.value == "CONFIRM_PAIRING" then Failure("PAIRING_NOT_CONFIRMED")
                     else Failure("UNKNOWN_COMMAND")
  {
    hide ParseMapping, ReadString, ReadUnsigned, ConfigBody, Failure, BareKey;
  }

  /** What a successful answer says. */
  lemma SuccessIsDocumented(m: ProductionMapping, sequence: uint32, text: string, id: Identity)
    ensures var command, reply := CommandOf(text), ReplyTo(m, sequence, text, true, id);
            && (command == Some("GET_INFO") ==> reply == Printed(Reply(true, id.info(sequence))))
            && (command == Some("GET_CNC_PROFILES") && id.profiles.Some? ==> reply == Reply(true, id.profiles.value))
            && (command == Some("START_SCAN") ==> reply == Success("\"scanning\":true"))
            && (command == Some("PAIR_CANDIDATE") ==> reply == Success("\"connecting\":true"))
            && (command == Some("CONFIRM_PAIRING") ==> reply == Success("\"paired\":true"))
            && (command == Some("CANCEL_PAIRING") ==> reply == Success("\"cancelled\":true"))
            && (command == Some("SET_CONFIG") && SpeaksSchema(text) && ParseMapping(text, m).Some? ==>
                  reply == Success("\"saved\":true"))
  {
    hide SpeaksSchema, ParseMapping, ReadString, ReadUnsigned, ConfigBody, Success;
  }

  /** Every answer opens with the protocol number and says whether the request was obeyed. */
  lemma FrameIsDocumented(body: string)
    ensures Framed(Reply(true, body)) == "{" + "\"protocol\":" + "1," + "\"ok\":" + "true" + "," + body + "}"
    ensures Framed(Reply(false, body)) == "{" + "\"protocol\":" + "1," + "\"ok\":" + "false" + "," + body + "}"
  {
    assert BareKey("protocol") == "\"protocol\":";
    assert BareKey("ok") == "\"ok\":";
  }

  lemma BodiesAreDocumented(text: string)
    ensures Failure(text).body == "\"error\":\"" + text + "\"" && !Failure(text).ok
    ensures Success(text).body == "\"result\":{" + text + "}" && Success(text).ok
  {
  }

  /** Bodies of 699 bytes and answers of 895 are the longest that are not cut. */
  lemma LimitsAreDocumented(r: Reply)
    ensures Response(r) == if |Framed(r)| <= 895 then Framed(r) else Framed(r)[..895]
    ensures Printed(r) == if |r.body| <= 699 then r else r.(body := r.body[..699])
  {
  }

  /** How a pairing state is announced. */
  lemma NoticeIsDocumented(state: string)
    ensures Notice(state)
            == "{" + "\"protocol\":" + "1," + "\"event\":\"" + "PAIRING_STATE\"," + "\"state\":\"" + state + "\"}"
  {
    assert BareKey("protocol") == "\"protocol\":" && Key("event") == "\"event\":\"" && Key("state") == "\"state\":\"";
  }

  lemma ShortNumber(n: nat)
    requires n < 1000
    ensures |DigitsOf(n)| <= 3
  {
    assert n / 10 / 10 < 10 && |DigitsOf(n / 10 / 10)| == 1;
  }

  /** A scan result is announced whole, for every signal strength the radio can report. */
  lemma ScanResultIsWhole(found: Inquiry)
    requires found.rssi.Some? ==> -128 <= found.rssi.value < 128
    ensures var name := if NamedLite2(found) then "8BitDo Lite 2" else "8BitDo Lite 2 (D mode)";
            var rssi := IntText(if found.rssi.Some? then found.rssi.value else -127);
            ScanResult(found)
            == "{" + BareKey("protocol") + "1," + Key("event") + "SCAN_RESULT\"," + BareKey("candidate") + "{"
               + Key("name") + name + "\"," + Key("address") + AddressText(found.address) + "\","
               + BareKey("rssi") + rssi + "}}"
  {
    hide NamedLite2, DigitsOf, HexText, Key, BareKey;
    var rssi := if found.rssi.Some? then found.rssi.value else -127;
    ShortNumber(if rssi < 0 then -rssi else rssi);
    KeyLengths("protocol", "event");
    KeyLengths("candidate", "name");
    KeyLengths("rssi", "address");
  }

  lemma KeyLengths(bare: string, quoted: string)
    ensures |BareKey(bare)| == |bare| + 3 && |Key(quoted)| == |quoted| + 4
  {
  }

  /** Which pairing states are announced, and when. */
  lemma NoticesAreDocumented(before: Pairing, after: Pairing, e: Event, request: Request)
    ensures request.PairCandidate? ==> NoticeOf(request) == Some(Notice("awaiting_physical_confirmation"))
    ensures request.Confirm? ==> NoticeOf(request) == Some(Notice("saved"))
    ensures !request.PairCandidate? && !request.Confirm? ==> NoticeOf(request) == None
    ensures EventNotice(before, after, e)
            == if e.Report? && !before.chordConfirmed && after.chordConfirmed then
                 Some(Notice("physical_confirmation_complete"))
               else if e.InquiryResult? && before.scanActive && IsCandidate(e.found) then Some(ScanResult(e.found))
               else if e.InquiryComplete? then Some(Notice("scan_complete"))
               else if e.ScanTimer? && before.scanRequested
                       && (Clock(e.t) - before.scanRequestedMs) % 0x1_0000_0000 > 65000 then Some(Notice("scan_failed"))
               else if e.DescriptorAvailable? && !e.supported && before.selected then
                 Some(Notice("unsupported_hid_descriptor"))
               else None
  {
    hide IsCandidate, Notice, ScanResult;
  }

  lemma NumbersAreDocumented()
    ensures IntText(-127) == "-127" && IntText(0) == "0" && IntText(42) == "42"
  {
    assert DigitsOf(1) == "1" && DigitsOf(12) == "12" && DigitsOf(127) == "127";
    assert DigitsOf(4) == "4" && DigitsOf(42) == "42";
  }
}
