/** What goes over the wire, byte by byte, in the literal values the console expects. */
module WireFormat {
  import opened Bits
  import opened Bytes
  import opened Axis
  import opened Gamepad
  import opened Flash
  import opened Protocol
  import opened Controller

  // ----- Buttons and sticks -----

  lemma Masks()
    ensures Pow2(0) == 0x01 && Pow2(1) == 0x02 && Pow2(2) == 0x04 && Pow2(3) == 0x08
    ensures Pow2(4) == 0x10 && Pow2(5) == 0x20 && Pow2(6) == 0x40 && Pow2(7) == 0x80
    ensures Pow2(8) == 0x100 && Pow2(9) == 0x200 && Pow2(10) == 0x400 && Pow2(12) == 0x1000
    ensures Pow2(13) == 0x2000 && Pow2(14) == 0x4000 && Pow2(15) == 0x8000 && Pow2(21) == 0x20_0000
  {
  }

  lemma FlagMask(b: byte, flags: seq<bool>, k: nat, mask: nat)
    requires k < 8 && BitsOf(b, 8) == flags && mask == Pow2(k)
    ensures And(b, mask) != 0 <==> flags[k]
  {
    AndSingleBit(b, k);
  }

  lemma ButtonMask(b: byte, flags: seq<bool>, k: nat, mask: nat, buttons: u32, position: nat, button: nat)
    requires k < 8 && position < 32 && BitsOf(b, 8) == flags && flags[k] == BitsOf(buttons, 32)[position]
    requires mask == Pow2(k) && button == Pow2(position)
    ensures And(b, mask) != 0 <==> And(buttons, button) != 0
  {
    FlagMask(b, flags, k, mask);
    PressedIsBit(buttons, position);
  }

  /** Y, X, B, A, the right shoulder and the right trigger, in the first byte. */
  lemma RightButtons(st: GamepadState)
    ensures var b := Encode(st)[0];
      && (And(b, 0x01) != 0 <==> And(st.buttons, 0x8000) != 0)
      && (And(b, 0x02) != 0 <==> And(st.buttons, 0x4000) != 0)
      && (And(b, 0x04) != 0 <==> And(st.buttons, 0x2000) != 0)
      && (And(b, 0x08) != 0 <==> And(st.buttons, 0x1000) != 0)
      && (And(b, 0x40) != 0 <==> And(st.buttons, 0x0200) != 0)
      && (And(b, 0x80) != 0 <==> st.triggerRight > 0)
      && And(b, 0x10) == 0 && And(b, 0x20) == 0
  {
    RightFlags(st);
    RightMasks(Encode(st)[0], Tests0(st), st);
  }

  lemma RightMasks(b: byte, flags: seq<bool>, st: GamepadState)
    requires flags == Tests0(st) && BitsOf(b, 8) == flags
    ensures
      && (And(b, 0x01) != 0 <==> And(st.buttons, 0x8000) != 0)
      && (And(b, 0x02) != 0 <==> And(st.buttons, 0x4000) != 0)
      && (And(b, 0x04) != 0 <==> And(st.buttons, 0x2000) != 0)
      && (And(b, 0x08) != 0 <==> And(st.buttons, 0x1000) != 0)
      && (And(b, 0x40) != 0 <==> And(st.buttons, 0x0200) != 0)
      && (And(b, 0x80) != 0 <==> st.triggerRight > 0)
      && And(b, 0x10) == 0 && And(b, 0x20) == 0
  {
    Masks();
    ButtonMask(b, flags, 0, 0x01, st.buttons, 15, 0x8000);
    ButtonMask(b, flags, 1, 0x02, st.buttons, 14, 0x4000);
    ButtonMask(b, flags, 2, 0x04, st.buttons, 13, 0x2000);
    ButtonMask(b, flags, 3, 0x08, st.buttons, 12, 0x1000);
    FlagMask(b, flags, 4, 0x10);
    FlagMask(b, flags, 5, 0x20);
    ButtonMask(b, flags, 6, 0x40, st.buttons, 9, 0x0200);
    FlagMask(b, flags, 7, 0x80);
  }

  lemma RightFlags(st: GamepadState)
    ensures BitsOf(Encode(st)[0], 8) == Tests0(st)
  {
    ButtonsRead(View(st));
    TestsAreFlags(st);
  }

  lemma MiddleFlags(st: GamepadState)
    ensures BitsOf(Encode(st)[1], 8) == Tests1(st)
  {
    MiddleButtonsRead(View(st));
    TestsAreFlags(st);
  }

  lemma LeftFlags(st: GamepadState)
    ensures BitsOf(Encode(st)[2], 8) == Tests2(st)
  {
    DirectionsRead(View(st));
    TestsAreFlags(st);
  }

  /** Minus, plus, the sticks' buttons, home and capture, in the second byte. */
  lemma MiddleButtons(st: GamepadState)
    ensures var b := Encode(st)[1];
      && (And(b, 0x01) != 0 <==> And(st.buttons, 0x0020) != 0)
      && (And(b, 0x02) != 0 <==> And(st.buttons, 0x0010) != 0)
      && (And(b, 0x04) != 0 <==> And(st.buttons, 0x0080) != 0)
      && (And(b, 0x08) != 0 <==> And(st.buttons, 0x0040) != 0)
      && (And(b, 0x10) != 0 <==> And(st.buttons, 0x0400) != 0)
      && (And(b, 0x20) != 0 <==> And(st.buttons, 0x20_0000) != 0)
      && And(b, 0x40) == 0 && And(b, 0x80) == 0
  {
    MiddleFlags(st);
    MiddleMasks(Encode(st)[1], Tests1(st), st);
  }

  lemma MiddleMasks(b: byte, flags: seq<bool>, st: GamepadState)
    requires flags == Tests1(st) && BitsOf(b, 8) == flags
    ensures
      && (And(b, 0x01) != 0 <==> And(st.buttons, 0x0020) != 0)
      && (And(b, 0x02) != 0 <==> And(st.buttons, 0x0010) != 0)
      && (And(b, 0x04) != 0 <==> And(st.buttons, 0x0080) != 0)
      && (And(b, 0x08) != 0 <==> And(st.buttons, 0x0040) != 0)
      && (And(b, 0x10) != 0 <==> And(st.buttons, 0x0400) != 0)
      && (And(b, 0x20) != 0 <==> And(st.buttons, 0x20_0000) != 0)
      && And(b, 0x40) == 0 && And(b, 0x80) == 0
  {
    Masks();
    ButtonMask(b, flags, 0, 0x01, st.buttons, 5, 0x0020);
    ButtonMask(b, flags, 1, 0x02, st.buttons, 4, 0x0010);
    ButtonMask(b, flags, 2, 0x04, st.buttons, 7, 0x0080);
    ButtonMask(b, flags, 3, 0x08, st.buttons, 6, 0x0040);
    ButtonMask(b, flags, 4, 0x10, st.buttons, 10, 0x0400);
    ButtonMask(b, flags, 5, 0x20, st.buttons, 21, 0x20_0000);
    FlagMask(b, flags, 6, 0x40);
    FlagMask(b, flags, 7, 0x80);
  }

  /** The directions, the left shoulder and the left trigger, in the third byte. */
  lemma LeftButtons(st: GamepadState)
    ensures var b := Encode(st)[2];
      && (And(b, 0x01) != 0 <==> And(st.buttons, 0x0002) != 0)
      && (And(b, 0x02) != 0 <==> And(st.buttons, 0x0001) != 0)
      && (And(b, 0x04) != 0 <==> And(st.buttons, 0x0008) != 0)
      && (And(b, 0x08) != 0 <==> And(st.buttons, 0x0004) != 0)
      && (And(b, 0x40) != 0 <==> And(st.buttons, 0x0100) != 0)
      && (And(b, 0x80) != 0 <==> st.triggerLeft > 0)
      && And(b, 0x10) == 0 && And(b, 0x20) == 0
  {
    LeftFlags(st);
    LeftMasks(Encode(st)[2], Tests2(st), st);
  }

  lemma LeftMasks(b: byte, flags: seq<bool>, st: GamepadState)
    requires flags == Tests2(st) && BitsOf(b, 8) == flags
    ensures
      && (And(b, 0x01) != 0 <==> And(st.buttons, 0x0002) != 0)
      && (And(b, 0x02) != 0 <==> And(st.buttons, 0x0001) != 0)
      && (And(b, 0x04) != 0 <==> And(st.buttons, 0x0008) != 0)
      && (And(b, 0x08) != 0 <==> And(st.buttons, 0x0004) != 0)
      && (And(b, 0x40) != 0 <==> And(st.buttons, 0x0100) != 0)
      && (And(b, 0x80) != 0 <==> st.triggerLeft > 0)
      && And(b, 0x10) == 0 && And(b, 0x20) == 0
  {
    Masks();
    ButtonMask(b, flags, 0, 0x01, st.buttons, 1, 0x0002);
    ButtonMask(b, flags, 1, 0x02, st.buttons, 0, 0x0001);
    ButtonMask(b, flags, 2, 0x04, st.buttons, 3, 0x0008);
    ButtonMask(b, flags, 3, 0x08, st.buttons, 2, 0x0004);
    FlagMask(b, flags, 4, 0x10);
    FlagMask(b, flags, 5, 0x20);
    ButtonMask(b, flags, 6, 0x40, st.buttons, 8, 0x0100);
    FlagMask(b, flags, 7, 0x80);
  }

  /** Three bytes hold two 12-bit values, little-endian, the second from the middle nibble on. */
  predicate HoldsPair(r: seq<byte>, at: nat, x: u12, y: u12)
    requires at + 3 <= |r|
  {
    r[at] == x % 0x100 && r[at + 1] == x / 0x100 + y % 0x10 * 0x10 && r[at + 2] == y / 0x10
  }

  lemma PackHoldsPair(x: u12, y: u12)
    ensures HoldsPair(Pack(x, y), 0, x, y)
  {
  }

  /** The left stick from byte 3, the right one from byte 6, x before y. */
  lemma Sticks(st: GamepadState)
    ensures HoldsPair(Encode(st), 3, AxisRaw(st.leftX), AxisRaw(st.leftY))
    ensures HoldsPair(Encode(st), 6, AxisRaw(st.rightX), AxisRaw(st.rightY))
  {
    PackHoldsPair(AxisRaw(st.leftX), AxisRaw(st.leftY));
    PackHoldsPair(AxisRaw(st.rightX), AxisRaw(st.rightY));
    PairsInPlace(ButtonBytes(View(st)), Pack(AxisRaw(st.leftX), AxisRaw(st.leftY)),
                 Pack(AxisRaw(st.rightX), AxisRaw(st.rightY)), Encode(st));
  }

  lemma PairsInPlace(a: seq<byte>, b: seq<byte>, c: seq<byte>, r: seq<byte>)
    requires |a| == |b| == |c| == 3 && r == a + b + c
    ensures forall i :: 0 <= i < 3 ==> r[3 + i] == b[i] && r[6 + i] == c[i]
  {
  }

  // ----- State reports -----

  /** A 0x30 report: timer, status byte, input, and nothing else. */
  predicate IsStateReport(r: seq<byte>, timer: int, input: Input) {
    |r| == 64 && r[0] == 0x30 && r[1] == timer && r[2] == 0x91 && r[3..12] == input && r[12..] == Fill(52, 0)
  }

  /** A new controller shows a neutral gamepad at time 0 and has no device. */
  lemma NewController(functionId: nat, flash: Image)
    ensures var s := Initial(functionId, flash);
            && IsStateReport(s.report, 0, [0, 0, 0, 0x00, 0x08, 0x80, 0x00, 0x08, 0x80])
            && s.flash == flash && s.functionId == functionId && s.fd == -1 && s.hidg == {} && s.trace == []
  {
    StateReportParts(0, NEUTRAL_INPUT);
  }

  /** One write more, of these bytes to this descriptor. */
  predicate Wrote(s: State, t: State, fd: int, bytes: seq<byte>) {
    |t.trace| == |s.trace| + 1 && t.trace[..|s.trace|] == s.trace &&
    t.trace[|s.trace|].fd == fd && t.trace[|s.trace|].bytes == bytes
  }

  /** An update of an open device increments the timer, puts its input into the report, and
      writes the report once: to the blocking descriptor if one of the three button bytes is
      new, else to the other. Without a device it does nothing. */
  lemma UpdateOnWire(s: State, input: Input, w: WriteResult)
    requires Inv(s)
    ensures var t := Next(s, SetState(input, w));
            if s.fd < 0 then t == s
            else
              && IsStateReport(t.report, (s.report[1] as int + 1) % 0x100, input)
              && Wrote(s, t, if input[..3] != s.report[3..6] then s.fd else s.fdNonblock, t.report)
              && t.ticks == s.ticks + 1 && t.commits == s.commits + [input]
  {
    if s.fd >= 0 {
      UpdatedReport(s.ticks, Last(s.commits), input);
      StateReportParts(s.ticks + 1, input);
    }
  }

  lemma StateReportParts(tick: nat, input: Input)
    ensures IsStateReport(ReportOf(tick, input), tick % 0x100, input)
  {
    assert ReportOf(tick, input)[12..] == Fill(52, 0);
  }

  // ----- Subcommands -----

  /** How long a request must be to be complete. */
  function MinLength(id: byte): nat {
    if id == 0x10 then 16
    else if id == 0x03 || id == 0x08 || id == 0x30 || id == 0x40 || id == 0x48 then 12
    else 11
  }

  function AckByte(id: byte): byte {
    if id == 0x01 then 0x81
    else if id == 0x02 then 0x82
    else if id == 0x04 then 0x83
    else if id == 0x10 then 0x90
    else 0x80
  }

  /** Where a flash read starts: four bytes, least significant first. */
  function Address(req: seq<byte>): nat
    requires |req| >= 16
  {
    var b0: int, b1: int, b2: int, b3: int := req[11], req[12], req[13], req[14];
    b0 + 0x100 * b1 + 0x1_0000 * b2 + 0x100_0000 * b3
  }

  /** What stands behind the header: nothing for most subcommands, a refusal for unknown ones. */
  function PayloadBytes(req: seq<byte>, flash: seq<byte>, functionId: nat): seq<byte>
    requires |req| >= 11 && |req| >= MinLength(req[10])
    requires req[10] == 0x10 ==> Address(req) + req[15] <= |flash|
  {
    var id := req[10];
    if id == 0x02 then [0x03, 0x49, 0x03, 0x02, functionId % 0x100, 0, 0, 0, 0, 0, 0x03, 0x02]
    else if id == 0x10 then req[11..16] + flash[Address(req)..Address(req) + req[15]]
    else if id == 0x01 || id == 0x03 || id == 0x04 || id == 0x08 || id == 0x30 || id == 0x38 || id == 0x40 || id == 0x48
      then []
    else [0x03]
  }

  /** A 0x21 report: the timer, the bytes of the report from the status byte to the vibrator
      byte, acknowledgement, subcommand, and the payload in front of zeros. */
  predicate IsReply(r: seq<byte>, report: seq<byte>, id: byte, payload: seq<byte>)
    requires |report| == 64
  {
    && |r| == 64 && |payload| <= 49
    && r[0] == 0x21 && r[1] == report[1] && r[2..13] == report[2..13]
    && r[13] == AckByte(id) && r[14] == id && r[15..] == payload + Fill(49 - |payload|, 0)
  }

  predicate OutOfRange(req: seq<byte>)
    requires |req| >= 16
  {
    Address(req) + req[15] > 0x8_0000
  }

  /** The plan for a request in literal terms. */
  lemma PlanIsLiteral(req: seq<byte>, flash: seq<byte>, functionId: nat)
    requires |req| >= 11 && |flash| == FLASH_SIZE
    ensures var plan := PlanOf(req[10], req[11..], flash, functionId);
            if |req| < MinLength(req[10]) || (req[10] == 0x10 && OutOfRange(req)) then plan == Ignore
            else plan == Answer(AckByte(req[10]), PayloadBytes(req, flash, functionId))
  {
    if |req| >= 16 {
      assert req[11..][..5] == req[11..16];
      AddressIsWord(req);
    }
  }

  lemma AddressIsWord(req: seq<byte>)
    requires |req| >= 16
    ensures FromLe32(req[11..][..4]) == Address(req) && req[11..][4] == req[15]
  {
    var word := req[11..][..4];
    assert word[0] == req[11] && word[1] == req[12] && word[2] == req[13] && word[3] == req[14];
  }

  /** Every request to the subcommand interface, through the 64-byte buffer: an incomplete one,
      and a flash read beyond the end, does nothing; any other increments the timer; and unless
      it reads more than 44 bytes, the reply goes out once, on the descriptor it came from. */
  lemma SubcommandOnWire(s: State, req: seq<byte>, out: int, w: WriteResult)
    requires s.Valid() && |req| >= 11 && req[0] == 0x01
    ensures var id, t := req[10], Next(s, OutputReport(64, req, out, w));
            if |req| < MinLength(id) || (id == 0x10 && OutOfRange(req)) then t == s
            else
              && t.report == s.report[1 := (s.report[1] as int + 1) % 0x100] && t.ticks == s.ticks + 1
              && if id == 0x10 && req[15] > 44 then t.trace == s.trace
                 else
                   && |t.trace| > |s.trace| && Wrote(s, t, out, t.trace[|s.trace|].bytes)
                   && IsReply(t.trace[|s.trace|].bytes, s.report, id, PayloadBytes(req, s.flash, s.functionId))
  {
    PlanIsLiteral(req, s.flash, s.functionId);
    if |req| >= MinLength(req[10]) && !(req[10] == 0x10 && OutOfRange(req)) {
      ReplyParts(s.report, AckByte(req[10]), req[10], PayloadBytes(req, s.flash, s.functionId));
    }
  }

  lemma ReplyParts(report: seq<byte>, ack: byte, id: byte, payload: seq<byte>)
    requires |report| == REPORT_SIZE && ack == AckByte(id)
    ensures var sized := Sized(REPORT_SIZE, Header(report, ack, id) + payload);
            if |payload| > 49 then sized == None
            else sized.Some? && IsReply(sized.value, report, id, payload)
  {
    if |payload| <= 49 {
      var bytes := Header(report, ack, id) + payload;
      var r := bytes + Fill(49 - |payload|, 0);
      assert |payload| == 49 ==> bytes[..REPORT_SIZE] == r;
      assert Sized(REPORT_SIZE, bytes) == Some(r);
      assert r[2..13] == report[2..13];
      assert r[15..] == payload + Fill(49 - |payload|, 0);
    }
  }

  // ----- USB commands and everything else -----

  /** The connection status and the handshake are answered in 64 bytes, the baud rate in two. */
  function UsbReply(id: byte, functionId: nat): seq<byte> {
    if id == 0x01 then [0x81, 0x01, 0x00, 0x03, 0, 0, 0, 0, 0, functionId % 0x100] + Fill(54, 0)
    else if id == 0x02 then [0x81, 0x02] + Fill(62, 0)
    else if id == 0x03 then [0x81, 0x03]
    else []
  }

  /** USB commands leave the report alone; other and too short requests do nothing at all. */
  lemma OthersOnWire(s: State, req: seq<byte>, out: int, w: WriteResult)
    requires s.Valid() && (req == [] || req[0] != 0x01 || |req| < 11)
    ensures var t := Next(s, OutputReport(64, req, out, w));
            if |req| >= 2 && req[0] == 0x80 && 0x01 <= req[1] <= 0x03 then
              Wrote(s, t, out, UsbReply(req[1], s.functionId)) && t.report == s.report && t.ticks == s.ticks
            else t == s
  {
    assert Sized(64, [0x81, 0x02]) == Some([0x81, 0x02] + Fill(62, 0));
    assert Sized(64, ConnStatus(s.functionId)) == Some(ConnStatus(s.functionId) + Fill(54, 0));
  }

  // ----- The flash -----

  lemma SensorBytes(r: seq<byte>, c: ImuCal, sensitivity: i16, low: byte, high: byte)
    requires r == EncodeImuCal(c) && c == ImuCal(0, 0, 0, sensitivity, sensitivity, sensitivity)
    requires sensitivity == 0x100 * (high as int) + low && high < 0x80
    ensures r == [0, 0, 0, 0, 0, 0, low, high, low, high, low, high]
  {
    assert Le16(0) == [0, 0] && Le16(sensitivity) == [low, high];
  }

  /** The motion sensors' calibration: no bias, then the sensitivities 16384 and 13371 per axis. */
  lemma MotionFlash(inner: u12, outer: u12)
    ensures var image := FlashImage(inner, outer);
      && Region(image, 0x6020, 12) == [0, 0, 0, 0, 0, 0, 0x00, 0x40, 0x00, 0x40, 0x00, 0x40]
      && Region(image, 0x602C, 12) == [0, 0, 0, 0, 0, 0, 0x3B, 0x34, 0x3B, 0x34, 0x3B, 0x34]
      && Region(image, 0x6080, 6) == [0, 0, 0, 0, 0, 0]
  {
    var image := FlashImage(inner, outer);
    MotionRegions(inner, outer);
    SensorBytes(Region(image, 0x6020, 12), ACCEL_CAL, 16384, 0x00, 0x40);
    SensorBytes(Region(image, 0x602C, 12), GYRO_CAL, 13371, 0x3B, 0x34);
    NoOffsets();
  }

  lemma NoOffsets()
    ensures EncodeOffsets(HORIZONTAL_OFFSETS) == [0, 0, 0, 0, 0, 0]
  {
  }

  /** The sticks' calibration in magnitudes around the centre 0x800: maximum 0x7FF, minimum
      0x800; left in the order maximum, centre, minimum, right in the order centre, minimum,
      maximum. */
  lemma StickFlash(inner: u12, outer: u12)
    ensures var image := FlashImage(inner, outer);
      && Region(image, 0x603D, 9) == [0xFF, 0xF7, 0x7F, 0x00, 0x08, 0x80, 0x00, 0x08, 0x80]
      && Region(image, 0x6046, 9) == [0x00, 0x08, 0x80, 0x00, 0x08, 0x80, 0xFF, 0xF7, 0x7F]
  {
    StickRegions(inner, outer);
    PackHoldsPair(0x7FF, 0x7FF);
    PackHoldsPair(0x800, 0x800);
  }

  /** Black body, white buttons, orange grips. */
  lemma ColorFlash(inner: u12, outer: u12)
    ensures Region(FlashImage(inner, outer), 0x6050, 12) ==
            [0x00, 0x00, 0x00, 0xFF, 0xFF, 0xFF, 0xFE, 0x9B, 0x00, 0xFE, 0x9B, 0x00]
  {
    OtherRegions(inner, outer);
  }

  /** The inner deadzone stands before the outer one, among ten values dumped from a controller. */
  lemma ParameterFlash(inner: u12, outer: u12)
    ensures var r := Region(FlashImage(inner, outer), 0x6086, 18);
      && r[0..3] == [0x0F, 0x30, 0x61]
      && HoldsPair(r, 3, inner, outer)
      && r[6..] == [0xD4, 0x14, 0x54, 0x41, 0x15, 0x54, 0xC7, 0x79, 0x9C, 0x33, 0x36, 0x63]
  {
    OtherRegions(inner, outer);
    ParameterBytes(inner, outer);
  }

  lemma ParameterBytes(inner: u12, outer: u12)
    ensures var r := EncodeStickParams(Params(inner, outer));
      && r[0..3] == [0x0F, 0x30, 0x61]
      && HoldsPair(r, 3, inner, outer)
      && r[6..] == [0xD4, 0x14, 0x54, 0x41, 0x15, 0x54, 0xC7, 0x79, 0x9C, 0x33, 0x36, 0x63]
  {
    PackHoldsPair(0x00F, 0x613);
    PackHoldsPair(inner, outer);
    PackHoldsPair(0x4D4, 0x541);
    PackHoldsPair(0x541, 0x541);
    PackHoldsPair(0x9C7, 0x9C7);
    PackHoldsPair(0x633, 0x633);
  }

  /** With deadzones of ten and ninety-five percent, 204 and 3890. */
  lemma ConfiguredDeadzones()
    ensures Region(FlashImage(204, 3890), 0x6089, 3) == [0xCC, 0x20, 0xF3]
  {
    ParameterFlash(204, 3890);
    var image := FlashImage(204, 3890);
    assert Region(image, 0x6089, 3) == Region(image, 0x6086, 18)[3..6];
  }
}
