/** The base station's sequential logic: message tables, signal-strength
    banding, the console command grammar, the transmitter that turns dequeued
    commands into frames, and the receive dispatch on the classifier's answer. */
module BaseStation {
  import opened Bytes
  import opened PayloadBuilder

  datatype Option<+T> = None | Some(value: T)

  // ----- Message tables (1-based for users) -----

  const EMERGENCY_MESSAGES: seq<string> := [
    "I'm OK",
    "I need water",
    "I need food",
    "I need medical assistance",
    "I'm lost, send help",
    "I am injured",
    "There is a fire nearby",
    "I need shelter",
    "I am trapped, please rescue",
    "Send my location to the rescue team"
  ]

  const BASE_MESSAGES: seq<string> := [
    "All clear",
    "Evacuate immediately",
    "Proceed to checkpoint",
    "Remain calm",
    "Await further instructions",
    "Medical team is en route",
    "Rescue team dispatched",
    "Help is arriving",
    "Situation under control",
    "Mission accomplished"
  ]

  const INVALID_INDEX_MESSAGE: string := "Invalid index! Please enter a number between 1 and 10."

  /** A 1-based lookup into a ten-entry table with a fixed fallback text. */
  function Lookup(table: seq<string>, index: int): string
    requires |table| == 10
  {
    var adjusted := index - 1;
    if 0 <= adjusted < 10 then table[adjusted] else INVALID_INDEX_MESSAGE
  }

  /** `getMessage`: the user emergency text for a 1-based index. */
  function GetMessage(index: int): (text: string)
    ensures text != INVALID_INDEX_MESSAGE <==> 1 <= index <= 10
    ensures 1 <= index <= 10 ==> text == EMERGENCY_MESSAGES[index - 1]
  {
    Lookup(EMERGENCY_MESSAGES, index)
  }

  /** `getBaseMessage`: the base station text for a 1-based index. */
  function GetBaseMessage(index: int): (text: string)
    ensures text != INVALID_INDEX_MESSAGE <==> 1 <= index <= 10
    ensures 1 <= index <= 10 ==> text == BASE_MESSAGES[index - 1]
  {
    Lookup(BASE_MESSAGES, index)
  }

  /** A valid text names exactly one index. */
  lemma MessageTextsIdentifyIndex(i: int, j: int)
    requires 1 <= i <= 10 && 1 <= j <= 10
    ensures GetMessage(i) == GetMessage(j) ==> i == j
  {
  }

  lemma BaseMessageTextsIdentifyIndex(i: int, j: int)
    requires 1 <= i <= 10 && 1 <= j <= 10
    ensures GetBaseMessage(i) == GetBaseMessage(j) ==> i == j
  {
  }

  // ----- Signal strength -----

  datatype SignalBand = Excellent | Good | Fair | Weak
  {
    /** The word printed after the dBm value. */
    function Name(): string
    {
      match this
      case Excellent => "Excellent"
      case Good => "Good"
      case Fair => "Fair"
      case Weak => "Weak"
    }

    /** Higher is better. */
    function Rank(): nat
    {
      match this
      case Excellent => 3
      case Good => 2
      case Fair => 1
      case Weak => 0
    }
  }

  /** `getRSSIStatus`: the four bands, each an interval of dBm readings. */
  function GetRssiStatus(rssi: int): (band: SignalBand)
    ensures band == Excellent <==> -65 < rssi
    ensures band == Good <==> -75 < rssi <= -65
    ensures band == Fair <==> -85 < rssi <= -75
    ensures band == Weak <==> rssi <= -85
  {
    if rssi > -65 then Excellent
    else if rssi > -75 then Good
    else if rssi > -85 then Fair
    else Weak
  }

  /** The printed word identifies the band. */
  lemma BandNamesDistinct(a: SignalBand, b: SignalBand)
    ensures a.Name() == b.Name() ==> a == b
  {
  }

  /** A weaker signal never gets a better band. */
  lemma RssiBandMonotone(weaker: int, stronger: int)
    requires weaker <= stronger
    ensures GetRssiStatus(weaker).Rank() <= GetRssiStatus(stronger).Rank()
  {
  }

  // ----- Console command grammar -----

  /** A send intent placed on the command queue. */
  datatype Command = Predefined(id: int) | Custom(text: seq<Byte>)

  const UPPER_C: Byte := 0x43
  const LOWER_C: Byte := 0x63
  const COLON: Byte := 0x3A

  /** `isspace` in the C locale: space, tab, newline, vertical tab, form feed, carriage return. */
  predicate IsSpace(c: Byte)
  {
    c == 0x20 || (0x09 <= c <= 0x0D)
  }

  /** No whitespace at either end. */
  predicate Trimmed(t: seq<Byte>)
  {
    |t| == 0 || (!IsSpace(t[0]) && !IsSpace(t[|t| - 1]))
  }

  predicate AllSpace(s: seq<Byte>)
  {
    forall k | 0 <= k < |s| :: IsSpace(s[k])
  }

  /** Drops leading whitespace. */
  function TrimStart(s: seq<Byte>): (t: seq<Byte>)
    ensures |t| <= |s| && t == s[|s| - |t|..]
    ensures AllSpace(s[..|s| - |t|])
    ensures |t| > 0 ==> !IsSpace(t[0])
  {
    if |s| > 0 && IsSpace(s[0]) then TrimStart(s[1..]) else s
  }

  /** Drops trailing whitespace. */
  function TrimEnd(s: seq<Byte>): (t: seq<Byte>)
    ensures |t| <= |s| && t == s[..|t|]
    ensures AllSpace(s[|t|..])
    ensures |t| > 0 ==> !IsSpace(t[|t| - 1])
  {
    if |s| > 0 && IsSpace(s[|s| - 1]) then TrimEnd(s[..|s| - 1]) else s
  }

  /** `String::trim`: the longest slice with no whitespace at either end. */
  function Trim(s: seq<Byte>): (t: seq<Byte>)
    ensures Trimmed(t)
    ensures |t| == 0 <==> AllSpace(s)
    ensures |t| <= |s|
  {
    var front := TrimStart(s);
    var t := TrimEnd(front);
    assert AllSpace(s) ==> |front| == 0;
    assert |t| == 0 ==> AllSpace(s) by {
      if |t| == 0 {
        assert s == s[..|s| - |front|] + front;
        assert front == front[|t|..];
      }
    }
    t
  }

  lemma {:induction false} TrimStartSkips(pre: seq<Byte>, t: seq<Byte>)
    requires AllSpace(pre) && (|t| == 0 || !IsSpace(t[0]))
    ensures TrimStart(pre + t) == t
    decreases |pre|
  {
    if |pre| > 0 {
      assert (pre + t)[1..] == pre[1..] + t;
      TrimStartSkips(pre[1..], t);
    } else {
      assert pre + t == t;
    }
  }

  lemma {:induction false} TrimEndSkips(t: seq<Byte>, post: seq<Byte>)
    requires AllSpace(post) && (|t| == 0 || !IsSpace(t[|t| - 1]))
    ensures TrimEnd(t + post) == t
    decreases |post|
  {
    if |post| > 0 {
      assert (t + post)[..|t + post| - 1] == t + post[..|post| - 1];
      TrimEndSkips(t, post[..|post| - 1]);
    } else {
      assert t + post == t;
    }
  }

  /** Whitespace around a trimmed text is exactly what `Trim` removes. */
  lemma TrimAround(pre: seq<Byte>, t: seq<Byte>, post: seq<Byte>)
    requires AllSpace(pre) && AllSpace(post) && Trimmed(t)
    ensures Trim(pre + t + post) == t
  {
    if |t| > 0 {
      assert pre + t + post == pre + (t + post);
      TrimStartSkips(pre, t + post);
      TrimEndSkips(t, post);
    } else {
      assert AllSpace(pre + t + post) by {
        forall k | 0 <= k < |pre + t + post|
          ensures IsSpace((pre + t + post)[k])
        {
          if k >= |pre| {
            assert (pre + t + post)[k] == post[k - |pre|];
          }
        }
      }
    }
  }

  /** `Trim` is idempotent. */
  lemma TrimIdempotent(s: seq<Byte>)
    ensures Trim(Trim(s)) == Trim(s)
  {
    TrimAround([], Trim(s), []);
    assert [] + Trim(s) + [] == Trim(s);
  }

  /** `startsWith("C:") || startsWith("c:")`. */
  predicate HasCustomMarker(s: seq<Byte>)
  {
    |s| >= 2 && (s[0] == UPPER_C || s[0] == LOWER_C) && s[1] == COLON
  }

  /** One console line: nothing for a blank line, a custom command after `C:`/`c:`,
      otherwise a predefined command with the integer `toInt` reads. */
  function ParseLine(line: seq<Byte>, toInt: seq<Byte> -> int): (cmd: Option<Command>)
    ensures cmd.None? <==> AllSpace(line)
    ensures cmd.Some? && cmd.value.Custom? ==>
      HasCustomMarker(Trim(line)) && Trimmed(cmd.value.text) && |cmd.value.text| <= |line| - 2
    ensures cmd.Some? && cmd.value.Predefined? ==>
      !HasCustomMarker(Trim(line)) && cmd.value.id == toInt(Trim(line))
  {
    var input := Trim(line);
    if |input| == 0 then None
    else if HasCustomMarker(input) then Some(Custom(Trim(input[2..])))
    else Some(Predefined(toInt(input)))
  }

  /** Round trip of the grammar: a custom marker followed by any text, with any
      whitespace around it, parses to that text. */
  lemma ParseCustomLine(pre: seq<Byte>, marker: Byte, gap: seq<Byte>, text: seq<Byte>, post: seq<Byte>,
                        toInt: seq<Byte> -> int)
    requires AllSpace(pre) && AllSpace(gap) && AllSpace(post) && Trimmed(text)
    requires marker == UPPER_C || marker == LOWER_C
    ensures ParseLine(pre + [marker, COLON] + gap + text + post, toInt) == Some(Custom(text))
  {
    var line := pre + [marker, COLON] + gap + text + post;
    if |text| > 0 {
      MarkedBodyTrimmed(marker, gap, text);
      TrimMarkedLine(pre, marker, gap, text, post);
      TrimAfterMarker(marker, gap, text);
      ParseMarked(line, toInt);
    } else {
      TrimMarkedLineEmpty(pre, marker, gap, post);
      assert line == pre + [marker, COLON] + gap + [] + post;
      ParseMarked(line, toInt);
      assert [marker, COLON][2..] == [];
    }
  }

  lemma TrimMarkedLineEmpty(pre: seq<Byte>, marker: Byte, gap: seq<Byte>, post: seq<Byte>)
    requires AllSpace(pre) && AllSpace(gap) && AllSpace(post)
    requires marker == UPPER_C || marker == LOWER_C
    ensures Trim(pre + [marker, COLON] + gap + [] + post) == [marker, COLON]
  {
    AllSpaceConcat(gap, post);
    assert pre + [marker, COLON] + gap + [] + post == pre + [marker, COLON] + (gap + post);
    TrimAround(pre, [marker, COLON], gap + post);
  }

  lemma TrimMarkedLine(pre: seq<Byte>, marker: Byte, gap: seq<Byte>, text: seq<Byte>, post: seq<Byte>)
    requires AllSpace(pre) && AllSpace(post) && Trimmed(text) && |text| > 0
    requires marker == UPPER_C || marker == LOWER_C
    ensures Trim(pre + [marker, COLON] + gap + text + post) == [marker, COLON] + gap + text
  {
    var body := [marker, COLON] + gap + text;
    assert pre + [marker, COLON] + gap + text + post == pre + body + post;
    MarkedBodyTrimmed(marker, gap, text);
    TrimAround(pre, body, post);
  }

  lemma TrimAfterMarker(marker: Byte, gap: seq<Byte>, text: seq<Byte>)
    requires AllSpace(gap) && Trimmed(text)
    ensures Trim(([marker, COLON] + gap + text)[2..]) == text
  {
    assert ([marker, COLON] + gap + text)[2..] == gap + text + [];
    TrimAround(gap, text, []);
  }

  lemma MarkedBodyTrimmed(marker: Byte, gap: seq<Byte>, text: seq<Byte>)
    requires marker == UPPER_C || marker == LOWER_C
    requires Trimmed(text) && |text| > 0
    ensures Trimmed([marker, COLON] + gap + text) && HasCustomMarker([marker, COLON] + gap + text)
  {
    var body := [marker, COLON] + gap + text;
    assert body[0] == marker && body[1] == COLON;
    assert body[|body| - 1] == text[|text| - 1];
  }

  lemma ParseMarked(line: seq<Byte>, toInt: seq<Byte> -> int)
    ensures HasCustomMarker(Trim(line)) ==> ParseLine(line, toInt) == Some(Custom(Trim(Trim(line)[2..])))
  {
  }

  lemma AllSpaceConcat(a: seq<Byte>, b: seq<Byte>)
    ensures AllSpace(a + b) <==> AllSpace(a) && AllSpace(b)
  {
    if AllSpace(a) && AllSpace(b) {
      forall k | 0 <= k < |a + b|
        ensures IsSpace((a + b)[k])
      {
        if k >= |a| {
          assert (a + b)[k] == b[k - |a|];
        }
      }
    }
    if AllSpace(a + b) {
      forall k | 0 <= k < |a|
        ensures IsSpace(a[k])
      {
        assert (a + b)[k] == a[k];
      }
      forall k | 0 <= k < |b|
        ensures IsSpace(b[k])
      {
        assert (a + b)[|a| + k] == b[k];
      }
    }
  }

  /** And any other non-blank line, with any whitespace around it, parses to
      the integer of its trimmed content. */
  lemma ParsePredefinedLine(pre: seq<Byte>, digits: seq<Byte>, post: seq<Byte>, toInt: seq<Byte> -> int)
    requires AllSpace(pre) && AllSpace(post) && Trimmed(digits) && |digits| > 0
    requires !HasCustomMarker(digits)
    ensures ParseLine(pre + digits + post, toInt) == Some(Predefined(toInt(digits)))
  {
    TrimAround(pre, digits, post);
  }

  /** The command one line yields, as a sequence of zero or one commands. */
  function LineCommands(line: seq<Byte>, toInt: seq<Byte> -> int): seq<Command>
  {
    match ParseLine(line, toInt)
    case None => []
    case Some(cmd) => [cmd]
  }

  /** The commands `f` yields for each line, concatenated in line order. */
  function Gather(lines: seq<seq<Byte>>, f: seq<Byte> -> seq<Command>): seq<Command>
  {
    if |lines| == 0 then [] else Gather(lines[..|lines| - 1], f) + f(lines[|lines| - 1])
  }

  lemma {:induction false} GatherAppend(a: seq<seq<Byte>>, b: seq<seq<Byte>>, f: seq<Byte> -> seq<Command>)
    ensures Gather(a + b, f) == Gather(a, f) + Gather(b, f)
    decreases |b|
  {
    if |b| == 0 {
      assert a + b == a;
    } else {
      var b' := b[..|b| - 1];
      assert (a + b)[..|a + b| - 1] == a + b';
      GatherAppend(a, b', f);
    }
  }

  lemma GatherSingle(line: seq<Byte>, f: seq<Byte> -> seq<Command>)
    ensures Gather([line], f) == f(line)
  {
    assert [line][..0] == [];
  }

  lemma {:induction false} GatherBound(lines: seq<seq<Byte>>, f: seq<Byte> -> seq<Command>)
    requires forall i | 0 <= i < |lines| :: |f(lines[i])| <= 1
    ensures |Gather(lines, f)| <= |lines|
  {
    if |lines| > 0 {
      GatherBound(lines[..|lines| - 1], f);
    }
  }

  lemma {:induction false} GatherEmpty(lines: seq<seq<Byte>>, f: seq<Byte> -> seq<Command>)
    ensures Gather(lines, f) == [] <==> forall i | 0 <= i < |lines| :: f(lines[i]) == []
  {
    if |lines| > 0 {
      var init := lines[..|lines| - 1];
      GatherEmpty(init, f);
      assert forall i | 0 <= i < |init| :: init[i] == lines[i];
    }
  }

  /** `LineCommands` with the integer reader fixed, as the per-line step of the fold. */
  function LineStep(toInt: seq<Byte> -> int): seq<Byte> -> seq<Command>
  {
    line => LineCommands(line, toInt)
  }

  /** `SerialInputTask` over the lines it reads: one command per non-blank line, pushed in
      line order. */
  function InputCommands(lines: seq<seq<Byte>>, toInt: seq<Byte> -> int): (cmds: seq<Command>)
    ensures |cmds| <= |lines|
    ensures cmds == [] <==> forall i | 0 <= i < |lines| :: AllSpace(lines[i])
  {
    var f := LineStep(toInt);
    GatherBound(lines, f);
    GatherEmpty(lines, f);
    Gather(lines, f)
  }

  /** A single line queues exactly the command `ParseLine` reads from it, if any. */
  lemma InputCommandsOfLine(line: seq<Byte>, toInt: seq<Byte> -> int)
    ensures InputCommands([line], toInt) == if AllSpace(line) then [] else [ParseLine(line, toInt).value]
  {
    GatherSingle(line, LineStep(toInt));
  }

  /** Reading two batches of lines queues the first batch's commands, then the second's. */
  lemma InputCommandsAppend(a: seq<seq<Byte>>, b: seq<seq<Byte>>, toInt: seq<Byte> -> int)
    ensures InputCommands(a + b, toInt) == InputCommands(a, toInt) + InputCommands(b, toInt)
  {
    GatherAppend(a, b, LineStep(toInt));
  }

  // ----- Transmitter -----

  const BASE_SOURCE_ID: Byte := 0x02
  const BASE_DESTINATION_ID: Byte := 0x01

  /** The base station's builder after `configure_device(0x02, 0x01)` in `setup`. */
  function BaseBuilder(): Builder
  {
    ConfigureDevice(NewBuilder(), BASE_SOURCE_ID, BASE_DESTINATION_ID)
  }

  /** `(uint8_t)(id - 1)`: the 1-based console id becomes a 0-based byte, modulo 256. */
  function PredefinedMsgId(id: int): (msgId: Byte)
    ensures 1 <= id <= 256 ==> msgId as int == id - 1
    ensures id == 0 ==> msgId == 255
    ensures (msgId as int + 1) % 256 == id % 256
  {
    ByteOfSmall((id - 1) % 256);
    ((id - 1) % 256) as Byte
  }

  /** `std::string(s.c_str())`: the text up to, not including, the first NUL byte. */
  function CString(s: seq<Byte>): (t: seq<Byte>)
    ensures t <= s
    ensures forall k | 0 <= k < |t| :: t[k] != 0
    ensures |t| < |s| ==> s[|t|] == 0
  {
    if |s| == 0 || s[0] == 0 then [] else [s[0]] + CString(s[1..])
  }

  /** Cutting at the first NUL twice is cutting once. */
  lemma {:induction false} CStringIdempotent(s: seq<Byte>)
    ensures CString(CString(s)) == CString(s)
    decreases |s|
  {
    if |s| > 0 && s[0] != 0 {
      CStringIdempotent(s[1..]);
      assert ([s[0]] + CString(s[1..]))[1..] == CString(s[1..]);
    }
  }

  /** The encoder call the transmitter makes for one dequeued command. */
  function CommandRequest(cmd: Command, tid: Uint16, date: DateTime): Request
  {
    match cmd
    case Predefined(id) => PMsgRequest(tid, date, PredefinedMsgId(id))
    case Custom(text) => CMsgRequest(tid, date, CString(text))
  }

  /** The packet sent for the k-th dequeued command (counting from 0) by a builder with b's identity. */
  function Packet(b: Builder, cmd: Command, k: nat, date: DateTime): (f: seq<Byte>)
    ensures f == [] <==> cmd.Custom? && |CString(cmd.text)| > CUSTOM_TEXT_BUDGET
  {
    Create(b, CommandRequest(cmd, k % 0x1_0000, date)).frame
  }

  /** One transmitter iteration sends `Packet` for its position, whatever the size counter holds. */
  lemma TransmitStep(builder: Builder, b: Builder, cmd: Command, k: nat, tid: Uint16, date: DateTime)
    requires builder.sourceId == b.sourceId && builder.destinationId == b.destinationId
    requires tid == k % 0x1_0000
    ensures Create(builder, CommandRequest(cmd, tid, date)).frame == Packet(b, cmd, k, date)
  {
    FrameIgnoresSize(builder, b, CommandRequest(cmd, tid, date));
  }

  /** `transmissionID++` on a `uint16_t` keeps counting the dequeued commands modulo 2^16. */
  lemma NextTransmissionId(k: nat)
    ensures (k % 0x1_0000 + 1) % 0x1_0000 == (k + 1) % 0x1_0000
  {
  }

  /** `LoRaTransmitTask` over the commands it dequeues, in order, with the date bytes the
      clock gave at each call. The id starts at 0 and goes up by one, modulo 2^16, after every
      command; an oversize custom text still goes out, as an empty packet, and still uses an id. */
  method TransmitCommands(b: Builder, cmds: seq<Command>, dates: seq<DateTime>)
    returns (sent: seq<seq<Byte>>, nextId: Uint16)
    requires |dates| == |cmds|
    ensures |sent| == |cmds|
    ensures nextId == |cmds| % 0x1_0000
    ensures forall k | 0 <= k < |cmds| :: sent[k] == Packet(b, cmds[k], k, dates[k])
  {
    var builder := b;
    var tid: Uint16 := 0;
    sent := [];
    var i := 0;
    while i < |cmds|
      invariant 0 <= i <= |cmds|
      invariant |sent| == i
      invariant tid == i % 0x1_0000
      invariant builder.sourceId == b.sourceId && builder.destinationId == b.destinationId
      invariant forall k | 0 <= k < i :: sent[k] == Packet(b, cmds[k], k, dates[k])
    {
      var created := Create(builder, CommandRequest(cmds[i], tid, dates[i]));
      TransmitStep(builder, b, cmds[i], i, tid, dates[i]);
      NextTransmissionId(i);
      sent := sent + [created.frame];
      builder := created.builder;
      tid := (tid + 1) % 0x1_0000;
      i := i + 1;
    }
    nextId := tid;
  }

  /** Every non-empty packet of the base station carries source 0x02 and destination 0x01,
      the identity `setup` configures. */
  lemma BasePacketsCarryBaseIdentity(cmd: Command, k: nat, date: DateTime)
    requires Packet(BaseBuilder(), cmd, k, date) != []
    ensures GetPayloadDetails(Packet(BaseBuilder(), cmd, k, date)).sourceId == BASE_SOURCE_ID
    ensures GetPayloadDetails(Packet(BaseBuilder(), cmd, k, date)).destinationId == BASE_DESTINATION_ID
  {
  }

  /** Every packet the transmitter puts on the air is either empty or a frame the receiving
      side classifies as its kind, carrying the base identity and the k-th id. */
  lemma TransmittedFramesCarrySequence(b: Builder, cmd: Command, k: nat, date: DateTime)
    requires Packet(b, cmd, k, date) != []
    ensures var f := Packet(b, cmd, k, date);
      && IdentifyTypeAndCheckChecksum(f) == (if cmd.Predefined? then P_MSG_TYPE else C_MSG_TYPE)
      && GetPayloadDetails(f).transmissionId == k % 0x1_0000
      && GetPayloadDetails(f).sourceId == b.sourceId
      && GetPayloadDetails(f).destinationId == b.destinationId
  {
    CreatedDetails(b, CommandRequest(cmd, k % 0x1_0000, date));
  }

  // ----- Receiver -----

  /** What `LoRaReceiveTask` reports for one received packet. */
  datatype Event =
    | GpsReceived(details: PayloadDetails, gps: GpsData)
    | PredefinedReceived(details: PayloadDetails, displayId: int, text: string)
      /** `message` is the text printed with `c_str()`: the body up to its first NUL byte. */
    | CustomReceived(details: PayloadDetails, message: seq<Byte>)
    | UnknownOrChecksumError
      /** A frame with a valid checksum but too short for the body its type announces. */
    | Truncated(kind: Byte)

  /** The receiver's length guard: the frame holds the whole body its tag announces. */
  predicate BodyFits(payload: seq<Byte>, kind: Byte)
  {
    if kind == GPS_TYPE then |payload| >= 20
    else if kind == P_MSG_TYPE then |payload| >= 13
    else kind == C_MSG_TYPE && |payload| >= HEADER_SIZE && |payload| >= HEADER_SIZE + payload[11] as int
  }

  /** The event together with the signal strength printed after it. */
  datatype Reception = Reception(event: Event, rssi: int, band: SignalBand)

  /** Dispatch on the classifier's answer; every packet, recognised or not, is followed by
      its RSSI band. */
  function ReceivePacket(payload: seq<Byte>, rssi: int): (r: Reception)
    ensures r.rssi == rssi && r.band == GetRssiStatus(rssi)
    ensures r.event.UnknownOrChecksumError?
            <==> IdentifyTypeAndCheckChecksum(payload) !in {GPS_TYPE, P_MSG_TYPE, C_MSG_TYPE}
    ensures r.event.GpsReceived? ==> Sealed(payload) && payload[0] == GPS_TYPE
    ensures r.event.PredefinedReceived? ==>
      && Sealed(payload) && payload[0] == P_MSG_TYPE
      && 1 <= r.event.displayId <= 256 && r.event.text == GetMessage(r.event.displayId)
    ensures r.event.CustomReceived? ==>
      Sealed(payload) && payload[0] == C_MSG_TYPE && |r.event.message| <= r.event.details.dataLength as int
    ensures r.event.Truncated? <==>
      var kind := IdentifyTypeAndCheckChecksum(payload);
      kind in {GPS_TYPE, P_MSG_TYPE, C_MSG_TYPE} && !BodyFits(payload, kind)
    ensures r.event.Truncated? ==> r.event.kind == IdentifyTypeAndCheckChecksum(payload)
    ensures IdentifyTypeAndCheckChecksum(payload) == GPS_TYPE && |payload| >= 20 ==>
      r.event == GpsReceived(GetPayloadDetails(payload), GpsData(payload[12..16], payload[16..20]))
    ensures IdentifyTypeAndCheckChecksum(payload) == P_MSG_TYPE && |payload| >= 13 ==>
      r.event == PredefinedReceived(GetPayloadDetails(payload), payload[12] as int + 1,
                                    GetMessage(payload[12] as int + 1))
    ensures IdentifyTypeAndCheckChecksum(payload) == C_MSG_TYPE
            && |payload| >= HEADER_SIZE && |payload| >= HEADER_SIZE + payload[11] as int ==>
      r.event == CustomReceived(GetPayloadDetails(payload),
                                CString(payload[HEADER_SIZE..HEADER_SIZE + payload[11] as int]))
  {
    var kind := IdentifyTypeAndCheckChecksum(payload);
    var event :=
      if kind == GPS_TYPE then
        if |payload| >= 20 then GpsReceived(GetPayloadDetails(payload), DecodeGpsPayload(payload))
        else Truncated(kind)
      else if kind == P_MSG_TYPE then
        if |payload| >= 13 then
          var displayId := DecodePMsgPayload(payload).msgId as int + 1;
          PredefinedReceived(GetPayloadDetails(payload), displayId, GetMessage(displayId))
        else Truncated(kind)
      else if kind == C_MSG_TYPE then
        if |payload| >= HEADER_SIZE && |payload| >= HEADER_SIZE + payload[11] as int then
          CustomReceived(GetPayloadDetails(payload), CString(DecodeCMsgPayload(payload).message))
        else Truncated(kind)
      else UnknownOrChecksumError;
    Reception(event, rssi, GetRssiStatus(rssi))
  }

  /** End to end: whatever the encoders build, the receiver reports with the same fields. */
  lemma ReceiveCreated(b: Builder, req: Request, rssi: int)
    requires Create(b, req).frame != []
    ensures var e := ReceivePacket(Create(b, req).frame, rssi).event;
      && !e.UnknownOrChecksumError? && !e.Truncated?
      && e.details.sourceId == b.sourceId
      && e.details.destinationId == b.destinationId
      && e.details.transmissionId == req.tid
      && e.details.dateTime == req.date
      && (req.GpsRequest? ==> e == GpsReceived(e.details, GpsData(req.longitude, req.latitude)))
      && (req.PMsgRequest? ==> e == PredefinedReceived(e.details, req.msgId as int + 1, GetMessage(req.msgId as int + 1)))
      && (req.CMsgRequest? ==> e == CustomReceived(e.details, CString(req.message)))
  {
    CreatedDetails(b, req);
    match req
    case GpsRequest(tid, date, lon, lat) =>
      GpsRoundTrip(b, tid, date, lon, lat);
    case PMsgRequest(tid, date, msgId) =>
      PMsgRoundTrip(b, tid, date, msgId);
    case CMsgRequest(tid, date, msg) =>
      CMsgRoundTrip(b, tid, date, msg);
  }

  /** A predefined command typed as `id` at one station is shown as `id` at the other,
      for every id from 1 to 256; id 0 wraps to byte 255 and is shown as 256. */
  lemma PredefinedIdAcrossLink(b: Builder, id: int, tid: Uint16, date: DateTime, rssi: int)
    ensures var e := ReceivePacket(Create(b, CommandRequest(Predefined(id), tid, date)).frame, rssi).event;
      && e.PredefinedReceived?
      && (1 <= id <= 256 ==> e.displayId == id && e.text == GetMessage(id))
      && (id == 0 ==> e.displayId == 256 && e.text == INVALID_INDEX_MESSAGE)
  {
    ReceiveCreated(b, CommandRequest(Predefined(id), tid, date), rssi);
  }

  /** A custom command typed at one station is shown at the other as its text up to the first
      NUL byte, whenever that part fits the frame. */
  lemma CustomTextAcrossLink(b: Builder, text: seq<Byte>, tid: Uint16, date: DateTime, rssi: int)
    requires |CString(text)| <= CUSTOM_TEXT_BUDGET
    ensures var e := ReceivePacket(Create(b, CommandRequest(Custom(text), tid, date)).frame, rssi).event;
      e.CustomReceived? && e.message == CString(text)
  {
    ReceiveCreated(b, CommandRequest(Custom(text), tid, date), rssi);
    CStringIdempotent(text);
  }

  /** A packet damaged in any single byte is reported as unknown, never decoded. */
  lemma CorruptedPacketRejected(frame: seq<Byte>, i: nat, v: Byte, rssi: int)
    requires Sealed(frame) && i < |frame| && v != frame[i]
    ensures ReceivePacket(frame[i := v], rssi).event == UnknownOrChecksumError
  {
    CorruptionDetected(frame, i, v);
  }
}
