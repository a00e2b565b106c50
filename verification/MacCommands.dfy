/** LoRaWAN MAC commands (simulator/lorawan/mac_commands.py), section 5 of LoRaWAN L2 1.0.4. */
module MacCommands {
  import opened Bytes

  datatype Command =
    | LinkCheckReq
    | LinkCheckAns(margin: int, gwCnt: int)
    | LinkADRReq(dataRate: int, txPower: int, chMask: int, chMaskCntl: int, nbTrans: int)
    | LinkADRAns(channelMaskAck: bool, dataRateAck: bool, powerAck: bool)
    | DutyCycleReq(maxDutyCycle: int)
    | DutyCycleAns
    | RXParamSetupReq(rx1DrOffset: int, rx2DataRate: int)
    | RXParamSetupAns(rx1DrOffsetAck: bool, rx2DataRateAck: bool, channelAck: bool)
    | DevStatusReq
    | DevStatusAns(battery: int, snrMargin: int)
    | NewChannelReq(chIndex: int, frequency: int, minDr: int, maxDr: int)
    | NewChannelAns(dataRateRangeOk: bool, channelFreqOk: bool)
    | RXTimingSetupReq(delay: int)
    | RXTimingSetupAns

  function Cid(c: Command): byte {
    match c
    case LinkCheckReq => 2
    case LinkCheckAns(_, _) => 2
    case LinkADRReq(_, _, _, _, _) => 3
    case LinkADRAns(_, _, _) => 3
    case DutyCycleReq(_) => 4
    case DutyCycleAns => 4
    case RXParamSetupReq(_, _) => 5
    case RXParamSetupAns(_, _, _) => 5
    case DevStatusReq => 6
    case DevStatusAns(_, _) => 6
    case NewChannelReq(_, _, _, _) => 7
    case NewChannelAns(_, _) => 7
    case RXTimingSetupReq(_) => 8
    case RXTimingSetupAns => 8
  }

  /** The fields written with a fixed number of bytes, which Python refuses to overflow. */
  predicate Encodable(c: Command) {
    match c
    case LinkADRReq(_, _, mask, _, _) => 0 <= mask < 65536
    case NewChannelReq(_, f, _, _) => 0 <= f < 100 * Pow256(3)
    case _ => true
  }

  function Flags(a: bool, b: bool, c: bool): byte {
    (if a then 4 else 0) + (if b then 2 else 0) + (if c then 1 else 0)
  }

  function Payload(c: Command): seq<byte>
    requires Encodable(c)
  {
    match c
    case LinkCheckAns(margin, gw) => [margin % 256, gw % 256]
    case LinkADRReq(dr, power, mask, cntl, nb) => [dr % 16 * 16 + power % 16] + ToLE(mask, 2) + [cntl % 8 * 16 + nb % 16]
    case LinkADRAns(m, d, p) => [Flags(m, d, p)]
    case DutyCycleReq(d) => [d % 16]
    case RXParamSetupReq(offset, dr) => [offset % 8 * 16 + dr % 16]
    case RXParamSetupAns(o, d, ch) => [Flags(o, d, ch)]
    case DevStatusAns(battery, margin) => [battery % 256, margin % 64]
    case NewChannelReq(index, f, min, max) => [index % 256] + ToLE(f / 100, 3) + [max % 16 * 16 + min % 16]
    case NewChannelAns(d, f) => [Flags(false, d, f)]
    case RXTimingSetupReq(delay) => [if delay <= 1 then 0 else delay % 16]
    case _ => []
  }

  function Encode(c: Command): (r: seq<byte>)
    requires Encodable(c)
    ensures |r| >= 1
  {
    [Cid(c)] + Payload(c)
  }

  /** Which side sends a command. */
  predicate IsDownlink(c: Command) {
    || c.LinkCheckAns? || c.LinkADRReq? || c.DutyCycleReq? || c.RXParamSetupReq? || c.DevStatusReq?
    || c.NewChannelReq? || c.RXTimingSetupReq?
  }

  function PayloadSize(downlink: bool, cid: byte): Option<nat> {
    if cid == 2 then Some(if downlink then 2 else 0)
    else if cid == 3 then Some(if downlink then 4 else 1)
    else if cid == 4 then Some(if downlink then 1 else 0)
    else if cid == 5 then Some(1)
    else if cid == 6 then Some(if downlink then 0 else 2)
    else if cid == 7 then Some(if downlink then 5 else 1)
    else if cid == 8 then Some(if downlink then 1 else 0)
    else None
  }

  function DecodeDownlink(cid: byte, data: seq<byte>): Command
    requires PayloadSize(true, cid) == Some(|data|)
  {
    if cid == 2 then LinkCheckAns(data[0], data[1])
    else if cid == 3 then
      LinkADRReq(data[0] / 16, data[0] % 16, FromLE(data[1..3]), data[3] / 16 % 8, data[3] % 16)
    else if cid == 4 then DutyCycleReq(data[0] % 16)
    else if cid == 5 then RXParamSetupReq(data[0] / 16 % 8, data[0] % 16)
    else if cid == 6 then DevStatusReq
    else if cid == 7 then NewChannelReq(data[0], FromLE(data[1..4]) * 100, data[4] % 16, data[4] / 16)
    else RXTimingSetupReq(if data[0] % 16 == 0 then 1 else data[0] % 16)
  }

  function DecodeUplink(cid: byte, data: seq<byte>): Command
    requires PayloadSize(false, cid) == Some(|data|)
  {
    if cid == 2 then LinkCheckReq
    else if cid == 3 then LinkADRAns(data[0] / 4 % 2 == 1, data[0] / 2 % 2 == 1, data[0] % 2 == 1)
    else if cid == 4 then DutyCycleAns
    else if cid == 5 then RXParamSetupAns(data[0] / 4 % 2 == 1, data[0] / 2 % 2 == 1, data[0] % 2 == 1)
    else if cid == 6 then
      var margin: int := data[1] % 64;
      DevStatusAns(data[0], if margin < 32 then margin else margin - 64)
    else if cid == 7 then NewChannelAns(data[0] / 2 % 2 == 1, data[0] % 2 == 1)
    else RXTimingSetupAns
  }

  function Decode(downlink: bool, cid: byte, data: seq<byte>): Command
    requires PayloadSize(downlink, cid) == Some(|data|)
  {
    if downlink then DecodeDownlink(cid, data) else DecodeUplink(cid, data)
  }

  /** The fields as the specification bounds them. */
  predicate InRange(c: Command) {
    match c
    case LinkCheckAns(margin, gw) => 0 <= margin < 256 && 0 <= gw < 256
    case LinkADRReq(dr, power, mask, cntl, nb) =>
      0 <= dr < 16 && 0 <= power < 16 && 0 <= mask < 65536 && 0 <= cntl < 8 && 0 <= nb < 16
    case DutyCycleReq(d) => 0 <= d < 16
    case RXParamSetupReq(offset, dr) => 0 <= offset < 8 && 0 <= dr < 16
    case DevStatusAns(battery, margin) => 0 <= battery < 256 && -32 <= margin < 32
    case NewChannelReq(index, f, min, max) =>
      0 <= index < 256 && 0 <= f < 100 * Pow256(3) && f % 100 == 0 && 0 <= min < 16 && 0 <= max < 16
    case RXTimingSetupReq(delay) => 1 <= delay < 16
    case _ => true
  }

  lemma SizeIsRight(c: Command)
    requires Encodable(c)
    ensures PayloadSize(IsDownlink(c), Cid(c)) == Some(|Payload(c)|)
  {
  }

  /** One command comes back as it was sent exactly when its fields are in range. */
  lemma CommandRoundTrip(c: Command)
    requires Encodable(c)
    ensures PayloadSize(IsDownlink(c), Cid(c)) == Some(|Payload(c)|)
    ensures Decode(IsDownlink(c), Cid(c), Payload(c)) == c <==> InRange(c)
  {
    SizeIsRight(c);
    match c
    case LinkADRReq(dr, power, mask, cntl, nb) => LinkADRRoundTrip(c);
    case NewChannelReq(index, f, min, max) => NewChannelRoundTrip(c);
    case _ => SmallCommandRoundTrip(c);
  }

  lemma FlagsRoundTrip(a: bool, b: bool, c: bool)
    ensures var f := Flags(a, b, c);
            (f / 4 % 2 == 1 <==> a) && (f / 2 % 2 == 1 <==> b) && (f % 2 == 1 <==> c)
  {
  }

  lemma SmallCommandRoundTrip(c: Command)
    requires Encodable(c) && !c.LinkADRReq? && !c.NewChannelReq?
    requires PayloadSize(IsDownlink(c), Cid(c)) == Some(|Payload(c)|)
    ensures Decode(IsDownlink(c), Cid(c), Payload(c)) == c <==> InRange(c)
  {
    hide Flags;
    match c
    case LinkADRAns(m, d, p) => FlagsRoundTrip(m, d, p);
    case RXParamSetupAns(o, d, ch) => FlagsRoundTrip(o, d, ch);
    case NewChannelAns(d, f) => FlagsRoundTrip(false, d, f);
    case DevStatusAns(battery, margin) => DevStatusRoundTrip(c);
    case RXParamSetupReq(offset, dr) => ParamSetupRoundTrip(c);
    case _ => PlainRoundTrip(c);
  }

  lemma PlainRoundTrip(c: Command)
    requires c.LinkCheckReq? || c.LinkCheckAns? || c.DutyCycleReq? || c.DutyCycleAns? || c.DevStatusReq?
             || c.RXTimingSetupReq? || c.RXTimingSetupAns?
    requires PayloadSize(IsDownlink(c), Cid(c)) == Some(|Payload(c)|)
    ensures Decode(IsDownlink(c), Cid(c), Payload(c)) == c <==> InRange(c)
  {
    hide Flags, ToLE, FromLE;
  }

  lemma DevStatusRoundTrip(c: Command)
    requires c.DevStatusAns? && |Payload(c)| == 2
    ensures DecodeUplink(6, Payload(c)) == c <==> InRange(c)
  {
    hide Flags, ToLE, FromLE;
  }

  lemma ParamSetupRoundTrip(c: Command)
    requires c.RXParamSetupReq? && |Payload(c)| == 1
    ensures DecodeDownlink(5, Payload(c)) == c <==> InRange(c)
  {
    hide Flags, ToLE, FromLE;
    var b := Payload(c)[0];
    assert b / 16 == c.rx1DrOffset % 8 && b % 16 == c.rx2DataRate % 16;
  }

  lemma LinkADRRoundTrip(c: Command)
    requires Encodable(c) && c.LinkADRReq? && |Payload(c)| == 4
    ensures DecodeDownlink(3, Payload(c)) == c <==> InRange(c)
  {
    hide ToLE, FromLE;
    var data := Payload(c);
    assert data[1..3] == ToLE(c.chMask, 2);
    assert Pow256(2) == 65536;
    LittleEndianRoundTrip(c.chMask, 2);
  }

  lemma NewChannelRoundTrip(c: Command)
    requires Encodable(c) && c.NewChannelReq? && |Payload(c)| == 5
    ensures DecodeDownlink(7, Payload(c)) == c <==> InRange(c)
  {
    hide ToLE, FromLE, Pow256;
    var data := Payload(c);
    assert data[1..4] == ToLE(c.frequency / 100, 3);
    LittleEndianRoundTrip(c.frequency / 100, 3);
  }

  // ---- Streams of commands ----

  predicate AllEncodable(commands: seq<Command>) {
    forall c :: c in commands ==> Encodable(c)
  }

  function Encoded(commands: seq<Command>): seq<byte>
    requires AllEncodable(commands)
  {
    if commands == [] then [] else Encode(commands[0]) + Encoded(commands[1..])
  }

  lemma {:induction false} EncodedAppend(commands: seq<Command>, c: Command)
    requires AllEncodable(commands) && Encodable(c)
    ensures Encoded(commands + [c]) == Encoded(commands) + Encode(c)
  {
    hide Encode;
    if commands == [] {
      assert (commands + [c])[1..] == [];
    } else {
      EncodedAppend(commands[1..], c);
      assert (commands + [c])[1..] == commands[1..] + [c];
    }
  }

  method EncodeMacCommands(commands: seq<Command>) returns (r: seq<byte>)
    requires AllEncodable(commands)
    ensures r == Encoded(commands)
  {
    hide Encode, Encodable;
    var buf: seq<byte> := [];
    for k := 0 to |commands|
      invariant buf == Encoded(commands[..k])
    {
      EncodedAppend(commands[..k], commands[k]);
      assert commands[..k + 1] == commands[..k] + [commands[k]];
      buf := buf + Encode(commands[k]);
    }
    assert commands[..|commands|] == commands;
    return buf;
  }

  /** A stream is read command by command; it ends at an unknown identifier or where the payload
      of the last command is cut. */
  function Parse(downlink: bool, data: seq<byte>): seq<Command>
    decreases |data|
  {
    if data == [] then []
    else
      match PayloadSize(downlink, data[0])
      case None => []
      case Some(size) =>
        if |data| - 1 < size then []
        else [Decode(downlink, data[0], data[1..1 + size])] + Parse(downlink, data[1 + size..])
  }

  /** Both parsers are this loop, each with its own table of payload sizes. */
  method ParseCommands(downlink: bool, data: seq<byte>) returns (commands: seq<Command>)
    ensures commands == Parse(downlink, data)
  {
    hide Decode, PayloadSize, Parse, Slice;
    commands := [];
    ParseNothing(downlink);
    assert data[0..] == data;
    var pos := 0;
    while pos < |data|
      invariant 0 <= pos <= |data|
      invariant Parse(downlink, data) == commands + Parse(downlink, data[pos..])
      decreases |data| - pos
    {
      ParseStep(downlink, data, pos);
      ghost var before := commands;
      var size := PayloadSize(downlink, data[pos]);
      if size.None? {
        return;
      }
      pos := pos + 1;
      var payload := Slice(data, pos, pos + size.value);
      WholeSlice(data, pos, pos + size.value);
      if |payload| < size.value {
        return;
      }
      var c := Decode(downlink, data[pos - 1], payload);
      commands := commands + [c];
      pos := pos + size.value;
      Grouped(before, [c], Parse(downlink, data[pos..]));
    }
    assert data[pos..] == [];
    assert commands + [] == commands;
  }

  lemma WholeSlice(data: seq<byte>, lo: nat, hi: nat)
    requires lo <= |data| && lo <= hi
    ensures |Slice(data, lo, hi)| >= hi - lo <==> hi <= |data|
  {
  }

  lemma Grouped<T>(a: seq<T>, b: seq<T>, c: seq<T>)
    ensures a + (b + c) == (a + b) + c
  {
  }

  lemma ParseNothing(downlink: bool)
    ensures Parse(downlink, []) == []
  {
  }

  lemma ParseStep(downlink: bool, data: seq<byte>, pos: nat)
    requires pos < |data|
    ensures var size := PayloadSize(downlink, data[pos]);
            Parse(downlink, data[pos..]) ==
            if size.None? || |data| - pos - 1 < size.value then []
            else [Decode(downlink, data[pos], data[pos + 1..pos + 1 + size.value])]
                 + Parse(downlink, data[pos + 1 + size.value..])
  {
    hide Decode;
    var rest := data[pos..];
    var size := PayloadSize(downlink, data[pos]);
    if size.Some? && size.value <= |data| - pos - 1 {
      assert rest[1..1 + size.value] == data[pos + 1..pos + 1 + size.value];
      assert rest[1 + size.value..] == data[pos + 1 + size.value..];
    }
  }

  /** How many whole commands fit into k bytes. */
  function WholeCommands(commands: seq<Command>, k: nat): (n: nat)
    requires AllEncodable(commands)
    ensures n <= |commands|
  {
    if commands == [] || |Encode(commands[0])| > k then 0
    else 1 + WholeCommands(commands[1..], k - |Encode(commands[0])|)
  }

  lemma {:induction false} WholeCommandsIsLongest(commands: seq<Command>, k: nat, n: nat)
    requires AllEncodable(commands) && n <= |commands|
    ensures |Encoded(commands[..n])| <= k <==> n <= WholeCommands(commands, k)
    decreases |commands|
  {
    hide Encode, Encodable;
    if n > 0 {
      assert commands[..n][1..] == commands[1..][..n - 1];
      if |Encode(commands[0])| <= k {
        WholeCommandsIsLongest(commands[1..], k - |Encode(commands[0])|, n - 1);
      }
    }
  }

  /** Cutting an encoded list at any byte leaves exactly its longest prefix of whole commands:
      none is garbled, none invented. */
  lemma {:induction false} TruncatedStream(downlink: bool, commands: seq<Command>, k: nat)
    requires forall c :: c in commands ==> InRange(c) && Encodable(c) && IsDownlink(c) == downlink
    requires k <= |Encoded(commands)|
    ensures Parse(downlink, Encoded(commands)[..k]) == commands[..WholeCommands(commands, k)]
    decreases |commands|
  {
    hide Encodable, Decode, PayloadSize, InRange, IsDownlink, Payload, Cid;
    if commands == [] || k == 0 {
    } else {
      var c, rest := commands[0], commands[1..];
      var data := Encoded(commands)[..k];
      CommandRoundTrip(c);
      var size := |Payload(c)|;
      assert data[0] == Cid(c);
      if 1 + size <= k {
        assert data[1..1 + size] == Payload(c);
        assert data[1 + size..] == Encoded(rest)[..k - 1 - size];
        TruncatedStream(downlink, rest, k - 1 - size);
        assert commands[..WholeCommands(commands, k)] == [c] + rest[..WholeCommands(rest, k - 1 - size)];
      }
    }
  }

  /** Parsing what was encoded gives the list back. */
  lemma StreamRoundTrip(downlink: bool, commands: seq<Command>)
    requires forall c :: c in commands ==> InRange(c) && Encodable(c) && IsDownlink(c) == downlink
    ensures Parse(downlink, Encoded(commands)) == commands
  {
    var data := Encoded(commands);
    TruncatedStream(downlink, commands, |data|);
    assert data[..|data|] == data;
    assert commands[..|commands|] == commands;
    WholeCommandsIsLongest(commands, |data|, |commands|);
  }

  const FOPTS_MAX := 15

  /** What is put into FOpts: the encoded commands, cut at 15 bytes. */
  function Drained(commands: seq<Command>): (r: seq<byte>)
    requires AllEncodable(commands)
    ensures |r| <= FOPTS_MAX
  {
    var data := Encoded(commands);
    if |data| > FOPTS_MAX then data[..FOPTS_MAX] else data
  }

  /** The other side reads whole commands only, and as many as fit. */
  lemma DrainedIsRead(downlink: bool, commands: seq<Command>)
    requires forall c :: c in commands ==> InRange(c) && Encodable(c) && IsDownlink(c) == downlink
    ensures Parse(downlink, Drained(commands)) == commands[..WholeCommands(commands, FOPTS_MAX)]
  {
    hide Parse, Encodable, InRange;
    var data := Encoded(commands);
    if |data| > FOPTS_MAX {
      TruncatedStream(downlink, commands, FOPTS_MAX);
    } else {
      StreamRoundTrip(downlink, commands);
      assert commands[..|commands|] == commands;
      WholeCommandsIsLongest(commands, FOPTS_MAX, |commands|);
    }
  }

  /** The device's side of the exchange: its radio parameters, and the answers that wait for the
      next uplink. */
  datatype Settings = Settings(dataRate: int, txPower: int, rx1Delay: int)

  const DATA_RATES := 6

  predicate KnownRate(dr: int) {
    0 <= dr < DATA_RATES
  }

  function Apply(s: Settings, c: Command): Settings {
    match c
    case LinkADRReq(dr, power, _, _, _) =>
      s.(dataRate := if KnownRate(dr) then dr else s.dataRate,
         txPower := if 0 <= power <= 14 then power else s.txPower)
    case RXTimingSetupReq(delay) => s.(rx1Delay := delay)
    case _ => s
  }

  function Answer(c: Command, battery: int): Option<Command> {
    match c
    case LinkADRReq(dr, power, _, _, _) => Some(LinkADRAns(true, KnownRate(dr) || dr == 15, 0 <= power <= 14 || power == 15))
    case DutyCycleReq(_) => Some(DutyCycleAns)
    case RXParamSetupReq(_, dr) => Some(RXParamSetupAns(true, KnownRate(dr), true))
    case DevStatusReq => Some(DevStatusAns(battery, 0))
    case NewChannelReq(_, _, _, _) => Some(NewChannelAns(true, true))
    case RXTimingSetupReq(_) => Some(RXTimingSetupAns)
    case _ => None
  }

  function Answers(commands: seq<Command>, battery: int): seq<Command> {
    if commands == [] then []
    else
      var before, last := Answers(commands[..|commands| - 1], battery), Answer(commands[|commands| - 1], battery);
      if last.Some? then before + [last.value] else before
  }

  function ApplyAll(s: Settings, commands: seq<Command>): Settings {
    if commands == [] then s else Apply(ApplyAll(s, commands[..|commands| - 1]), commands[|commands| - 1])
  }

  function Questions(commands: seq<Command>): (r: seq<Command>)
    ensures |r| <= |commands|
  {
    if commands == [] then []
    else
      var before, last := Questions(commands[..|commands| - 1]), commands[|commands| - 1];
      if last.LinkCheckAns? then before else before + [last]
  }

  /** Every request has one answer with its own identifier, in the order of the requests, and
      every answer can be encoded. */
  lemma {:induction false} AnswersPairUp(commands: seq<Command>, battery: int)
    requires 0 <= battery < 256 && forall c :: c in commands ==> IsDownlink(c)
    ensures var answers, questions := Answers(commands, battery), Questions(commands);
            && |answers| == |questions|
            && (forall k :: 0 <= k < |answers| ==> Cid(answers[k]) == Cid(questions[k]))
            && (forall k :: 0 <= k < |answers| ==>
                  !IsDownlink(answers[k]) && InRange(answers[k]) && Encodable(answers[k]))
    decreases |commands|
  {
    if commands != [] {
      AnswersPairUp(commands[..|commands| - 1], battery);
      AnswerPairsUp(commands[|commands| - 1], battery);
    }
  }

  lemma AnswerPairsUp(c: Command, battery: int)
    requires 0 <= battery < 256 && IsDownlink(c)
    ensures c.LinkCheckAns? <==> Answer(c, battery).None?
    ensures var a := Answer(c, battery);
            a.Some? ==> Cid(a.value) == Cid(c) && !IsDownlink(a.value) && InRange(a.value) && Encodable(a.value)
  {
  }

  class MacHandler {
    var settings: Settings
    var battery: int
    var pending: seq<Command>

    ghost predicate Valid()
      reads this
    {
      && 0 <= battery < 256
      && forall c :: c in pending ==> InRange(c) && Encodable(c) && !IsDownlink(c)
    }

    constructor (settings: Settings, battery: int)
      requires 0 <= battery < 256
      ensures Valid() && this.settings == settings && this.battery == battery && pending == []
    {
      this.settings, this.battery, pending := settings, battery, [];
    }

    /** `_handle_mac_commands`. */
    method HandleMacCommands(commands: seq<Command>)
      requires Valid() && forall c :: c in commands ==> IsDownlink(c)
      modifies this
      ensures Valid() && battery == old(battery)
      ensures pending == old(pending) + Answers(commands, battery)
      ensures settings == ApplyAll(old(settings), commands)
    {
      hide InRange, Encodable, IsDownlink;
      for k := 0 to |commands|
        invariant Valid() && battery == old(battery)
        invariant pending == old(pending) + Answers(commands[..k], battery)
        invariant settings == ApplyAll(old(settings), commands[..k])
      {
        var c := commands[k];
        assert commands[..k + 1][..k] == commands[..k];
        AnswerPairsUp(c, battery);
        settings := Apply(settings, c);
        var answer := Answer(c, battery);
        if answer.Some? {
          pending := pending + [answer.value];
        }
      }
      assert commands[..|commands|] == commands;
    }

    /** `_drain_mac_answers`: the server reads the longest prefix of the answers that fits, and
        the answers that were cut are gone. */
    method DrainMacAnswers() returns (fopts: seq<byte>)
      requires Valid()
      modifies this`pending
      ensures Valid() && pending == []
      ensures |fopts| == Min(15, |Encoded(old(pending))|) && fopts <= Encoded(old(pending))
      ensures Parse(false, fopts) == old(pending)[..WholeCommands(old(pending), FOPTS_MAX)]
    {
      hide InRange, Encodable, IsDownlink, Parse;
      DrainedIsRead(false, pending);
      if |pending| == 0 {
        return [];
      }
      fopts := EncodeMacCommands(pending);
      pending := [];
      if |fopts| > 15 {
        fopts := fopts[..15];
      }
    }
  }

  /** Fifteen bytes of requests can ask for more than fifteen bytes of answers. */
  lemma AnswersCanBeCut()
    ensures var commands := seq(6, _ => DevStatusReq);
            && |Drained(commands)| == 6
            && Answers(commands, 255) == seq(6, _ => DevStatusAns(255, 0))
            && WholeCommands(Answers(commands, 255), FOPTS_MAX) == 5
  {
    var one := [DevStatusReq];
    var commands := seq(6, _ => DevStatusReq);
    StatusStream(DevStatusReq, 6);
    StatusAnswers(6);
    StatusStream(DevStatusAns(255, 0), 6);
    assert Answers(commands, 255) == seq(6, _ => DevStatusAns(255, 0));
    WholeStatus(6, 15);
  }

  lemma {:induction false} StatusStream(c: Command, n: nat)
    requires Encodable(c)
    ensures |Encoded(seq(n, _ => c))| == n * |Encode(c)|
  {
    if n > 0 {
      assert seq(n, _ => c)[1..] == seq(n - 1, _ => c);
      StatusStream(c, n - 1);
    }
  }

  lemma {:induction false} StatusAnswers(n: nat)
    ensures Answers(seq(n, _ => DevStatusReq), 255) == seq(n, _ => DevStatusAns(255, 0))
  {
    if n > 0 {
      assert seq(n, _ => DevStatusReq)[..n - 1] == seq(n - 1, _ => DevStatusReq);
      StatusAnswers(n - 1);
    }
  }

  lemma {:induction false} WholeStatus(n: nat, k: nat)
    requires 3 * n >= k
    ensures WholeCommands(seq(n, _ => DevStatusAns(255, 0)), k) == k / 3
  {
    if n > 0 && k >= 3 {
      assert seq(n, _ => DevStatusAns(255, 0))[1..] == seq(n - 1, _ => DevStatusAns(255, 0));
      WholeStatus(n - 1, k - 3);
    }
  }

  // ---- The bytes on the air ----

  /** Every request with its fields in range, byte by byte, as section 5 of LoRaWAN L2 1.0.4 lays it out. */
  lemma RequestBytes(c: Command)
    requires InRange(c) && Encodable(c) && IsDownlink(c)
    ensures match c
            case LinkCheckAns(margin, gwCnt) => Encode(c) == [0x02, margin, gwCnt]
            case LinkADRReq(dr, power, mask, cntl, nb) => Encode(c) == [0x03, 16 * dr + power, mask % 256, mask / 256, 16 * cntl + nb]
            case DutyCycleReq(d) => Encode(c) == [0x04, d]
            case RXParamSetupReq(offset, dr) => Encode(c) == [0x05, 16 * offset + dr]
            case DevStatusReq => Encode(c) == [0x06]
            case NewChannelReq(index, f, min, max) =>
              Encode(c) == [0x07, index, f / 100 % 256, f / 25600 % 256, f / 6553600, 16 * max + min]
            case RXTimingSetupReq(delay) => Encode(c) == [0x08, if delay == 1 then 0 else delay]
            case _ => true
  {
    hide ToLE;
    match c
    case LinkADRReq(_, _, _, _, _) => AdrBytes(c);
    case NewChannelReq(_, _, _, _) => ChannelBytes(c);
    case _ =>
  }

  /** And every answer. */
  lemma AnswerBytes(c: Command)
    requires InRange(c) && Encodable(c) && !IsDownlink(c)
    ensures match c
            case LinkCheckReq => Encode(c) == [0x02]
            case LinkADRAns(mask, dr, power) =>
              Encode(c) == [0x03, (if mask then 4 else 0) + (if dr then 2 else 0) + (if power then 1 else 0)]
            case DutyCycleAns => Encode(c) == [0x04]
            case RXParamSetupAns(offset, dr, channel) =>
              Encode(c) == [0x05, (if offset then 4 else 0) + (if dr then 2 else 0) + (if channel then 1 else 0)]
            case DevStatusAns(battery, margin) => Encode(c) == [0x06, battery, if margin < 0 then margin + 64 else margin]
            case NewChannelAns(range, freq) => Encode(c) == [0x07, (if range then 2 else 0) + (if freq then 1 else 0)]
            case RXTimingSetupAns => Encode(c) == [0x08]
            case _ => true
  {
    hide ToLE;
  }

  lemma AdrBytes(c: Command)
    requires InRange(c) && Encodable(c) && c.LinkADRReq?
    ensures Encode(c) == [0x03, 16 * c.dataRate + c.txPower, c.chMask % 256, c.chMask / 256, 16 * c.chMaskCntl + c.nbTrans]
  {
    hide ToLE;
    LittleEndianBytes(c.chMask);
  }

  lemma ChannelBytes(c: Command)
    requires InRange(c) && Encodable(c) && c.NewChannelReq?
    ensures Encode(c) == [0x07, c.chIndex, c.frequency / 100 % 256, c.frequency / 25600 % 256, c.frequency / 6553600,
                          16 * c.maxDr + c.minDr]
  {
    hide ToLE;
    LittleEndianBytes(c.frequency / 100);
    assert Pow256(3) == 16777216;
    assert c.frequency / 100 / 256 == c.frequency / 25600 && c.frequency / 100 / 65536 == c.frequency / 6553600;
  }

  // ---- What the device does ----

  /** One after the other: the later requests see what the earlier ones have set, and the answers
      come in their order. */
  lemma {:induction false} InOrder(s: Settings, a: seq<Command>, b: seq<Command>, battery: int)
    ensures ApplyAll(s, a + b) == ApplyAll(ApplyAll(s, a), b)
    ensures Answers(a + b, battery) == Answers(a, battery) + Answers(b, battery)
    decreases |b|
  {
    hide Apply, Answer;
    if b == [] {
      assert a + b == a;
    } else {
      var front, last := b[..|b| - 1], b[|b| - 1];
      assert (a + b)[..|a + b| - 1] == a + front && (a + b)[|a + b| - 1] == last;
      InOrder(s, a, front, battery);
    }
  }

  /** The answer to a LinkADRReq tells the truth. Data rates 0 to 5 and powers 0 to 14 are taken over
      and acknowledged; 15 keeps what is set and is acknowledged; any other value is refused and
      changes nothing. The channel mask is always accepted. */
  lemma AdrAnswerIsTrue(s: Settings, c: Command, battery: int)
    requires c.LinkADRReq?
    ensures var (after, ack) := (ApplyAll(s, [c]), Answers([c], battery));
            && |ack| == 1 && ack[0].LinkADRAns? && ack[0].channelMaskAck
            && (0 <= c.dataRate <= 5 ==> ack[0].dataRateAck && after.dataRate == c.dataRate)
            && (!(0 <= c.dataRate <= 5) ==> after.dataRate == s.dataRate && (ack[0].dataRateAck <==> c.dataRate == 15))
            && (0 <= c.txPower <= 14 ==> ack[0].powerAck && after.txPower == c.txPower)
            && (!(0 <= c.txPower <= 14) ==> after.txPower == s.txPower && (ack[0].powerAck <==> c.txPower == 15))
            && after.rx1Delay == s.rx1Delay
  {
    assert [c][..0] == [];
    assert ApplyAll(s, []) == s && Answers([], battery) == [];
  }

  /** The other requests: a new delay is set, nothing else is; the status is the battery's level. */
  lemma OtherAnswers(s: Settings, c: Command, battery: int)
    requires IsDownlink(c) && !c.LinkADRReq?
    ensures ApplyAll(s, [c]) == if c.RXTimingSetupReq? then s.(rx1Delay := c.delay) else s
    ensures Answers([c], battery) ==
              (match c
               case DutyCycleReq(_) => [DutyCycleAns]
               case RXParamSetupReq(_, dr) => [RXParamSetupAns(true, 0 <= dr <= 5, true)]
               case DevStatusReq => [DevStatusAns(battery, 0)]
               case NewChannelReq(_, _, _, _) => [NewChannelAns(true, true)]
               case RXTimingSetupReq(_) => [RXTimingSetupAns]
               case _ => [])
  {
    assert [c][..0] == [];
    assert ApplyAll(s, []) == s && Answers([], battery) == [];
  }
}
