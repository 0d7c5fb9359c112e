/** The user device's button-driven selection grid: `states[3][3]` and
    `selectedRow`, changed by one poll of the MODE, UP, DOWN and OK buttons,
    and the screen chosen from the selected row. */
module UserDevice {
  import opened Bytes

  /** One row of `states[3][3]`: column 0 marks the selected row, column 1 is the
      row's value, column 2 is its OK flag. */
  datatype RowState = RowState(marker: Byte, value: Byte, flag: Byte)

  type Row = r: int | 0 <= r < 3

  type Grid = g: seq<RowState> | |g| == 3
    witness [RowState(0, 0, 0), RowState(0, 0, 0), RowState(0, 0, 0)]

  datatype Device = Device(states: Grid, selectedRow: Row)

  /** Which buttons read HIGH in one poll. */
  datatype Buttons = Buttons(mode: bool, up: bool, down: bool, ok: bool)

  /** The device after a poll and the message ids it queued for sending, in order. */
  datatype Polled = Polled(device: Device, emitted: seq<int>)

  datatype Screen = Welcome | Inbox | Send

  /** The row whose OK press queues a message. */
  const SEND_ROW: Row := 2

  /** All nine cells zero and row 0 selected. */
  function InitialDevice(): Device
  {
    Device([RowState(0, 0, 0), RowState(0, 0, 0), RowState(0, 0, 0)], 0)
  }

  /** The send row's OK flag is clear. */
  predicate Disarmed(d: Device)
  {
    d.states[SEND_ROW].flag == 0
  }

  /** `!x` on a `uint8_t`: 1 for 0, 0 for anything else. */
  function LogicalNot(x: Byte): Byte
  {
    if x == 0 then 1 else 0
  }

  /** MODE: the next row, cyclically, and a marker on that row only. */
  function PressMode(d: Device): (r: Device)
    ensures r.selectedRow == (d.selectedRow + 1) % 3
    ensures forall i | 0 <= i < 3 :: r.states[i].marker == (if i == r.selectedRow then 1 else 0)
    ensures forall i | 0 <= i < 3 ::
      r.states[i].value == d.states[i].value && r.states[i].flag == d.states[i].flag
  {
    var row := (d.selectedRow + 1) % 3;
    Device(seq(3, i requires 0 <= i < 3 => d.states[i].(marker := if i == row then 1 else 0)), row)
  }

  /** UP: the guard `value < 256` holds for every byte, so the value wraps from 255 to 0. */
  function PressUp(d: Device): (r: Device)
    ensures r.selectedRow == d.selectedRow
    ensures r.states[d.selectedRow].value as int == (d.states[d.selectedRow].value as int + 1) % 256
    ensures r.states[d.selectedRow].marker == d.states[d.selectedRow].marker
    ensures r.states[d.selectedRow].flag == d.states[d.selectedRow].flag
    ensures forall i | 0 <= i < 3 && i != d.selectedRow :: r.states[i] == d.states[i]
  {
    var row := d.selectedRow;
    var cell := d.states[row];
    IncrementWraps(cell.value);
    if cell.value as int < 256 then
      d.(states := d.states[row := cell.(value := cell.value + 1)])
    else
      d
  }

  /** DOWN: decrements only above 0, so it never wraps. */
  function PressDown(d: Device): (r: Device)
    ensures d.states[d.selectedRow].value == 0 ==> r == d
    ensures d.states[d.selectedRow].value > 0 ==>
      && r.selectedRow == d.selectedRow
      && r.states[d.selectedRow].value as int == d.states[d.selectedRow].value as int - 1
      && r.states[d.selectedRow].marker == d.states[d.selectedRow].marker
      && r.states[d.selectedRow].flag == d.states[d.selectedRow].flag
      && forall i | 0 <= i < 3 && i != d.selectedRow :: r.states[i] == d.states[i]
  {
    var row := d.selectedRow;
    var cell := d.states[row];
    if cell.value > 0 then
      DecrementPositive(cell.value);
      d.(states := d.states[row := cell.(value := cell.value - 1)])
    else
      d
  }

  /** OK: toggles the row's flag; on the send row a flag that became 1 queues the row's
      value and is cleared again. */
  function PressOk(d: Device): (r: Polled)
    ensures r.device.selectedRow == d.selectedRow
    ensures r.emitted != [] <==> d.selectedRow == SEND_ROW && d.states[SEND_ROW].flag == 0
    ensures r.emitted != [] ==> r.emitted == [d.states[SEND_ROW].value as int]
    ensures d.selectedRow == SEND_ROW ==> Disarmed(r.device)
    ensures d.selectedRow != SEND_ROW ==>
      r.device.states[d.selectedRow].flag == (if d.states[d.selectedRow].flag == 0 then 1 else 0)
    ensures forall i | 0 <= i < 3 :: r.device.states[i].value == d.states[i].value
    ensures r.device.states[d.selectedRow].marker == d.states[d.selectedRow].marker
    ensures forall i | 0 <= i < 3 && i != d.selectedRow :: r.device.states[i] == d.states[i]
  {
    var row := d.selectedRow;
    var cell := d.states[row];
    var toggled := d.(states := d.states[row := cell.(flag := LogicalNot(cell.flag))]);
    if row == SEND_ROW && toggled.states[row].flag == 1 then
      Polled(toggled.(states := toggled.states[row := toggled.states[row].(flag := 0)]), [cell.value as int])
    else
      Polled(toggled, [])
  }

  /** One iteration of `ButtonTask` with the debounce window open: MODE, UP, DOWN, OK,
      each acting on the state the previous one left. */
  function Poll(d: Device, b: Buttons): (r: Polled)
    ensures r.device.selectedRow == if b.mode then (d.selectedRow + 1) % 3 else d.selectedRow
    ensures Disarmed(d) ==> Disarmed(r.device)
    ensures Disarmed(d) ==> (r.emitted != [] <==> b.ok && r.device.selectedRow == SEND_ROW)
    ensures r.emitted != [] ==> r.emitted == [r.device.states[SEND_ROW].value as int]
    ensures |r.emitted| <= 1
  {
    var afterMode := if b.mode then PressMode(d) else d;
    var afterDown := PressUpDown(afterMode, b.up, b.down);
    if b.ok then PressOk(afterDown) else Polled(afterDown, [])
  }

  /** The UP check, then the DOWN check, of one poll. */
  function PressUpDown(d: Device, up: bool, down: bool): Device
  {
    var afterUp := if up then PressUp(d) else d;
    if down then PressDown(afterUp) else afterUp
  }

  /** UP and DOWN change the selected row's value only, each by one step, UP first. */
  lemma UpDownActsOnRow(d: Device, up: bool, down: bool)
    ensures var r := PressUpDown(d, up, down);
      && r.selectedRow == d.selectedRow
      && forall i | 0 <= i < 3 && i != d.selectedRow :: r.states[i].value == d.states[i].value
    ensures var before, after := d.states[d.selectedRow].value as int,
                                 PressUpDown(d, up, down).states[d.selectedRow].value as int;
      && (up && !down ==> after == (before + 1) % 256)
      && (!up && down ==> after == if before > 0 then before - 1 else 0)
      && (up && down ==> after == if before == 255 then 0 else before)
      && (!up && !down ==> after == before)
  {
    if up && down {
      UpThenDownRestores(d);
    }
  }

  /** UP and DOWN act, in that order, on the row MODE has just selected, and on no other row. */
  lemma PollActsOnSelectedRow(d: Device, b: Buttons)
    ensures var r := Poll(d, b).device;
      forall i | 0 <= i < 3 && i != r.selectedRow :: r.states[i].value == d.states[i].value
    ensures var r := Poll(d, b).device;
      var before, after := d.states[r.selectedRow].value as int, r.states[r.selectedRow].value as int;
      && (b.up && !b.down ==> after == (before + 1) % 256)
      && (!b.up && b.down ==> after == if before > 0 then before - 1 else 0)
      && (b.up && b.down ==> after == if before == 255 then 0 else before)
      && (!b.up && !b.down ==> after == before)
  {
    var m := if b.mode then PressMode(d) else d;
    UpDownActsOnRow(m, b.up, b.down);
    PollValuesAfterUpDown(d, b);
    assert forall i | 0 <= i < 3 :: m.states[i].value == d.states[i].value;
  }

  /** OK, the last check of a poll, changes no value and keeps the row. */
  lemma PollValuesAfterUpDown(d: Device, b: Buttons)
    ensures var w := PressUpDown(if b.mode then PressMode(d) else d, b.up, b.down);
      && Poll(d, b).device.selectedRow == w.selectedRow
      && forall i | 0 <= i < 3 :: Poll(d, b).device.states[i].value == w.states[i].value
  {
  }

  /** UP and DOWN touch values only: every flag and marker is kept. */
  lemma UpDownKeepsFlagsAndMarkers(m: Device, up: bool, down: bool)
    ensures var w := PressUpDown(m, up, down);
      forall i | 0 <= i < 3 :: w.states[i].flag == m.states[i].flag && w.states[i].marker == m.states[i].marker
  {
    var a := if up then PressUp(m) else m;
    assert forall i | 0 <= i < 3 :: a.states[i].flag == m.states[i].flag && a.states[i].marker == m.states[i].marker;
  }

  /** Before OK is read, a poll has changed no flag, and only MODE has moved the markers. */
  lemma FlagsAndMarkersBeforeOk(d: Device, b: Buttons)
    ensures var w := PressUpDown(if b.mode then PressMode(d) else d, b.up, b.down);
      && (forall i | 0 <= i < 3 :: w.states[i].flag == d.states[i].flag)
      && (b.mode ==> forall i | 0 <= i < 3 :: w.states[i].marker == (if i == w.selectedRow then 1 else 0))
      && (!b.mode ==> forall i | 0 <= i < 3 :: w.states[i].marker == d.states[i].marker)
  {
    var m := if b.mode then PressMode(d) else d;
    UpDownKeepsFlagsAndMarkers(m, b.up, b.down);
    UpDownActsOnRow(m, b.up, b.down);
  }

  /** The device a poll leaves is OK's result on the device UP and DOWN left, or that device. */
  lemma PollDeviceAfterUpDown(d: Device, b: Buttons)
    ensures var w := PressUpDown(if b.mode then PressMode(d) else d, b.up, b.down);
      Poll(d, b).device == if b.ok then PressOk(w).device else w
  {
  }

  /** Within a poll, OK toggles the flag of the row MODE selected (clearing it again on the send
      row) and no other flag; MODE alone moves the markers. */
  lemma PollFlagsAndMarkers(d: Device, b: Buttons)
    ensures var r := Poll(d, b).device;
      forall i | 0 <= i < 3 && i != r.selectedRow :: r.states[i].flag == d.states[i].flag
    ensures var r := Poll(d, b).device;
      !b.ok ==> r.states[r.selectedRow].flag == d.states[r.selectedRow].flag
    ensures var r := Poll(d, b).device;
      b.ok && r.selectedRow != SEND_ROW ==> r.states[r.selectedRow].flag == LogicalNot(d.states[r.selectedRow].flag)
    ensures var r := Poll(d, b).device;
      b.ok && r.selectedRow == SEND_ROW ==> r.states[SEND_ROW].flag == 0
    ensures var r := Poll(d, b).device;
      b.mode ==> forall i | 0 <= i < 3 :: r.states[i].marker == (if i == r.selectedRow then 1 else 0)
    ensures var r := Poll(d, b).device;
      !b.mode ==> forall i | 0 <= i < 3 :: r.states[i].marker == d.states[i].marker
  {
    FlagsAndMarkersBeforeOk(d, b);
    PollDeviceAfterUpDown(d, b);
  }

  /** Consecutive polls, collecting every queued id in order. */
  function Run(d: Device, polls: seq<Buttons>): Polled
  {
    if |polls| == 0 then Polled(d, [])
    else
      var prev := Run(d, polls[..|polls| - 1]);
      var last := Poll(prev.device, polls[|polls| - 1]);
      Polled(last.device, prev.emitted + last.emitted)
  }

  /** The send row's flag is 0 in every reachable state, so every OK press on the send
      row queues a message; at most one id per poll, each a byte value. */
  lemma {:induction false} RunKeepsDisarmed(d: Device, polls: seq<Buttons>)
    requires Disarmed(d)
    ensures Disarmed(Run(d, polls).device)
    ensures |Run(d, polls).emitted| <= |polls|
    ensures forall k | 0 <= k < |Run(d, polls).emitted| :: 0 <= Run(d, polls).emitted[k] < 256
  {
    if |polls| > 0 {
      RunKeepsDisarmed(d, polls[..|polls| - 1]);
    }
  }

  lemma InitialDeviceIsDisarmed()
    ensures Disarmed(InitialDevice()) && InitialDevice().selectedRow == 0
    ensures forall i | 0 <= i < 3 :: InitialDevice().states[i] == RowState(0, 0, 0)
  {
  }

  /** The checks run in order within one poll: MODE and OK pressed together on the
      inbox row move to the send row first and then queue its value. */
  lemma ModeThenOkInOnePoll(d: Device)
    requires d.selectedRow == 1 && Disarmed(d)
    ensures Poll(d, Buttons(true, false, false, true)).emitted == [d.states[SEND_ROW].value as int]
  {
  }

  /** UP then DOWN is the identity below 255; at 255, UP wraps to 0 and DOWN then stays at 0. */
  lemma UpThenDownRestores(d: Device)
    ensures d.states[d.selectedRow].value < 255 ==> PressDown(PressUp(d)) == d
    ensures d.states[d.selectedRow].value == 255 ==> PressDown(PressUp(d)).states[d.selectedRow].value == 0
  {
    if d.states[d.selectedRow].value < 255 {
      var u := PressUp(d);
      assert u.states[d.selectedRow].value > 0;
      assert u.states[d.selectedRow := d.states[d.selectedRow]] == d.states;
    }
  }

  /** The row whose screen `s` is. */
  function ScreenRow(s: Screen): Row
  {
    match s
    case Welcome => 0
    case Inbox => 1
    case Send => SEND_ROW
  }

  /** `renderUI`: the screen is chosen from the selected row alone, one screen per row. */
  function RenderUI(d: Device): (s: Screen)
    ensures ScreenRow(s) == d.selectedRow
  {
    if d.selectedRow == 0 then Welcome
    else if d.selectedRow == 1 then Inbox
    else Send
  }

  function NextScreen(s: Screen): Screen
  {
    match s
    case Welcome => Inbox
    case Inbox => Send
    case Send => Welcome
  }

  /** MODE walks the screens Welcome, Inbox, Send and back to Welcome. */
  lemma ModeCyclesScreens(d: Device)
    ensures RenderUI(PressMode(d)) == NextScreen(RenderUI(d))
    ensures RenderUI(PressMode(PressMode(PressMode(d)))) == RenderUI(d)
    ensures RenderUI(d) == Send <==> d.selectedRow == SEND_ROW
  {
  }
}
