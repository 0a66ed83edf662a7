/** Gamepad states and their nine report bytes: three of buttons, six of sticks. */
module Gamepad {
  import opened Bits
  import opened Bytes
  import opened Axis

  datatype GamepadState = GamepadState(
    buttons: u32, triggerLeft: byte, triggerRight: byte,
    leftX: i16, leftY: i16, rightX: i16, rightY: i16)

  const NEUTRAL := GamepadState(0, 0, 0, 0, 0, 0, 0)

  /** The nine input bytes of a report. */
  type Input = r: seq<byte> | |r| == 9 witness Fill(9, 0)

  /** Nothing pressed, both sticks at the centre 0x800. */
  const NEUTRAL_INPUT: Input := [0, 0, 0, 0x00, 0x08, 0x80, 0x00, 0x08, 0x80]

  // Bit positions of the button mask.
  const DPAD_UP := 0
  const DPAD_DOWN := 1
  const DPAD_LEFT := 2
  const DPAD_RIGHT := 3
  const START := 4
  const BACK := 5
  const LEFT_STICK := 6
  const RIGHT_STICK := 7
  const LEFT := 8
  const RIGHT := 9
  const HOME := 10
  const A := 12
  const B := 13
  const X := 14
  const Y := 15
  const MISC := 21

  /** What the controller can express: sixteen buttons, two digital triggers, four 12-bit axes. */
  datatype Pad = Pad(
    y: bool, x: bool, b: bool, a: bool, right: bool, triggerRight: bool,
    minus: bool, plus: bool, rightStick: bool, leftStick: bool, home: bool, capture: bool,
    down: bool, up: bool, dpadRight: bool, dpadLeft: bool, left: bool, triggerLeft: bool,
    leftX: u12, leftY: u12, rightX: u12, rightY: u12)

  function View(st: GamepadState): Pad {
    var held := BitsOf(st.buttons, 32);
    Pad(held[Y], held[X], held[B], held[A], held[RIGHT], st.triggerRight > 0,
        held[BACK], held[START], held[RIGHT_STICK], held[LEFT_STICK], held[HOME], held[MISC],
        held[DPAD_DOWN], held[DPAD_UP], held[DPAD_RIGHT], held[DPAD_LEFT], held[LEFT], st.triggerLeft > 0,
        AxisRaw(st.leftX), AxisRaw(st.leftY), AxisRaw(st.rightX), AxisRaw(st.rightY))
  }

  // The flags of each button byte, bit 0 first.
  function Flags0(p: Pad): seq<bool> { [p.y, p.x, p.b, p.a, false, false, p.right, p.triggerRight] }
  function Flags1(p: Pad): seq<bool> { [p.minus, p.plus, p.rightStick, p.leftStick, p.home, p.capture, false, false] }
  function Flags2(p: Pad): seq<bool> { [p.down, p.up, p.dpadRight, p.dpadLeft, false, false, p.left, p.triggerLeft] }

  function FlagByte(flags: seq<bool>): byte
    requires |flags| == 8
  {
    assert Pow2(8) == 0x100;
    FromBits(flags, 8)
  }

  function EncodePad(p: Pad): (r: seq<byte>)
    ensures |r| == 9
  {
    ButtonBytes(p) + Pack(p.leftX, p.leftY) + Pack(p.rightX, p.rightY)
  }

  function ButtonBytes(p: Pad): (r: seq<byte>)
    ensures |r| == 3
  {
    [FlagByte(Flags0(p)), FlagByte(Flags1(p)), FlagByte(Flags2(p))]
  }

  /** The nine bytes of a state. */
  function Encode(st: GamepadState): Input {
    EncodePad(View(st))
  }

  /** What a console reads from nine report bytes. */
  function Decode(r: seq<byte>): Pad
    requires |r| == 9
  {
    var f0, f1, f2 := BitsOf(r[0], 8), BitsOf(r[1], 8), BitsOf(r[2], 8);
    Pad(f0[0], f0[1], f0[2], f0[3], f0[6], f0[7],
        f1[0], f1[1], f1[2], f1[3], f1[4], f1[5],
        f2[0], f2[1], f2[2], f2[3], f2[6], f2[7],
        UnpackFirst(r[3..6]), UnpackSecond(r[3..6]), UnpackFirst(r[6..9]), UnpackSecond(r[6..9]))
  }

  lemma FlagByteReads(flags: seq<bool>)
    requires |flags| == 8
    ensures BitsOf(FlagByte(flags), 8) == flags
  {
    BitsOfFromBits(flags, 8);
  }

  lemma ButtonsRead(p: Pad)
    ensures BitsOf(EncodePad(p)[0], 8) == Flags0(p)
  {
    FlagByteReads(Flags0(p));
  }

  lemma MiddleButtonsRead(p: Pad)
    ensures BitsOf(EncodePad(p)[1], 8) == Flags1(p)
  {
    FlagByteReads(Flags1(p));
  }

  lemma DirectionsRead(p: Pad)
    ensures BitsOf(EncodePad(p)[2], 8) == Flags2(p)
  {
    FlagByteReads(Flags2(p));
  }

  lemma SticksRead(p: Pad)
    ensures var r := EncodePad(p);
            UnpackFirst(r[3..6]) == p.leftX && UnpackSecond(r[3..6]) == p.leftY &&
            UnpackFirst(r[6..9]) == p.rightX && UnpackSecond(r[6..9]) == p.rightY
  {
    SticksOf(p, ButtonBytes(p), EncodePad(p));
  }

  lemma SticksOf(p: Pad, buttons: seq<byte>, r: seq<byte>)
    requires |buttons| == 3 && r == buttons + Pack(p.leftX, p.leftY) + Pack(p.rightX, p.rightY)
    ensures UnpackFirst(r[3..6]) == p.leftX && UnpackSecond(r[3..6]) == p.leftY
    ensures UnpackFirst(r[6..9]) == p.rightX && UnpackSecond(r[6..9]) == p.rightY
  {
    Thirds(r, buttons, Pack(p.leftX, p.leftY), Pack(p.rightX, p.rightY));
    StickOf(r[3..6], p.leftX, p.leftY);
    StickOf(r[6..9], p.rightX, p.rightY);
  }

  lemma StickOf(r: seq<byte>, x: u12, y: u12)
    requires r == Pack(x, y)
    ensures UnpackFirst(r) == x && UnpackSecond(r) == y
  {
    PackThenUnpack(x, y);
  }

  lemma Thirds(r: seq<byte>, a: seq<byte>, b: seq<byte>, c: seq<byte>)
    requires |a| == |b| == |c| == 3 && r == a + b + c
    ensures r[3..6] == b && r[6..9] == c
  {
  }

  lemma DecodeEncodePad(p: Pad)
    ensures Decode(EncodePad(p)) == p
  {
    ButtonsRead(p);
    MiddleButtonsRead(p);
    DirectionsRead(p);
    SticksRead(p);
    DecodeParts(EncodePad(p), p);
  }

  lemma DecodeParts(r: seq<byte>, p: Pad)
    requires |r| == 9
    requires BitsOf(r[0], 8) == Flags0(p) && BitsOf(r[1], 8) == Flags1(p) && BitsOf(r[2], 8) == Flags2(p)
    requires UnpackFirst(r[3..6]) == p.leftX && UnpackSecond(r[3..6]) == p.leftY
    requires UnpackFirst(r[6..9]) == p.rightX && UnpackSecond(r[6..9]) == p.rightY
    ensures Decode(r) == p
  {
  }

  lemma {:induction false} NoFlags(bs: seq<bool>, n: nat)
    requires n <= |bs| && forall i :: 0 <= i < n ==> !bs[i]
    ensures FromBits(bs, n) == 0
  {
    if n > 0 {
      NoFlags(bs, n - 1);
    }
  }

  lemma NothingPressed(p: Pad)
    requires forall i :: 0 <= i < 8 ==> !Flags0(p)[i] && !Flags1(p)[i] && !Flags2(p)[i]
    ensures ButtonBytes(p) == [0, 0, 0]
  {
    NoFlags(Flags0(p), 8);
    NoFlags(Flags1(p), 8);
    NoFlags(Flags2(p), 8);
  }

  lemma CentredSticks(x: u12)
    requires x == 0x800
    ensures Pack(x, x) == [0x00, 0x08, 0x80]
  {
  }

  lemma NeutralInput()
    ensures Encode(NEUTRAL) == NEUTRAL_INPUT
  {
    var p := View(NEUTRAL);
    forall k | 0 <= k < 32 ensures !BitsOf(0, 32)[k] {
      ZeroBit(k);
    }
    NothingPressed(p);
    CentredSticks(p.leftX);
    assert p.leftX == p.leftY == p.rightX == p.rightY;
  }

  /** The console reads back exactly what the controller can express. */
  lemma DecodeEncode(st: GamepadState)
    ensures Decode(Encode(st)) == View(st)
  {
    DecodeEncodePad(View(st));
  }

  /** Two states look alike on the wire exactly when they agree on everything expressible. */
  lemma EncodeKernel(s: GamepadState, t: GamepadState)
    ensures Encode(s) == Encode(t) <==> View(s) == View(t)
  {
    DecodeEncode(s);
    DecodeEncode(t);
  }

  /** Bits that no button owns stay clear, whatever the state. */
  lemma UnusedBitsClear(st: GamepadState)
    ensures var r := Encode(st);
            var f0, f1, f2 := BitsOf(r[0], 8), BitsOf(r[1], 8), BitsOf(r[2], 8);
            !f0[4] && !f0[5] && !f1[6] && !f1[7] && !f2[4] && !f2[5]
  {
    ButtonsRead(View(st));
    MiddleButtonsRead(View(st));
    DirectionsRead(View(st));
  }

  // ----- Filling the bytes in place -----

  // The flags of each button byte, by the tests that set them.
  function Tests0(st: GamepadState): seq<bool> {
    var held := BitsOf(st.buttons, 32);
    [held[Y], held[X], held[B], held[A], false, false, held[RIGHT], st.triggerRight > 0]
  }

  function Tests1(st: GamepadState): seq<bool> {
    var held := BitsOf(st.buttons, 32);
    [held[BACK], held[START], held[RIGHT_STICK], held[LEFT_STICK], held[HOME], held[MISC], false, false]
  }

  function Tests2(st: GamepadState): seq<bool> {
    var held := BitsOf(st.buttons, 32);
    [held[DPAD_DOWN], held[DPAD_UP], held[DPAD_RIGHT], held[DPAD_LEFT], false, false, held[LEFT], st.triggerLeft > 0]
  }

  lemma TestsAreFlags(st: GamepadState)
    ensures Tests0(st) == Flags0(View(st)) && Tests1(st) == Flags1(View(st)) && Tests2(st) == Flags2(View(st))
  {
  }

  /** `if (buttons & mask)` with a single-bit mask. */
  predicate Pressed(buttons: u32, k: nat) {
    And(buttons, Pow2(k)) != 0
  }

  lemma PressedIsBit(buttons: u32, k: nat)
    requires k < 32
    ensures Pressed(buttons, k) <==> BitsOf(buttons, 32)[k]
  {
    AndSingleBit(buttons, k);
  }

  /** `if (condition) buffer[i] |= BIT(k);` with the result truncated to a byte:
      after bits 0..k-1 of want, bit k. */
  method SetFlag(buffer: array<byte>, i: nat, k: nat, condition: bool, ghost want: seq<bool>)
    requires i < buffer.Length && k < 8 == |want|
    requires condition == want[k] && buffer[i] == FromBits(want, k)
    modifies buffer
    ensures buffer[i] == FromBits(want, k + 1)
    ensures forall j :: 0 <= j < buffer.Length && j != i ==> buffer[j] == old(buffer[j])
  {
    AppendFlag(want, k);
    if condition {
      buffer[i] := ToByte(Or(buffer[i], Pow2(k)));
    }
  }

  /** `if (buttons & (1 << position)) buffer[i] |= BIT(k);` */
  method SetButton(buffer: array<byte>, i: nat, k: nat, buttons: u32, position: nat, ghost want: seq<bool>)
    requires i < buffer.Length && k < 8 == |want| && position < 32
    requires BitsOf(buttons, 32)[position] == want[k] && buffer[i] == FromBits(want, k)
    modifies buffer
    ensures buffer[i] == FromBits(want, k + 1)
    ensures forall j :: 0 <= j < buffer.Length && j != i ==> buffer[j] == old(buffer[j])
  {
    PressedIsBit(buttons, position);
    SetFlag(buffer, i, k, Pressed(buttons, position), want);
  }

  lemma AppendFlag(want: seq<bool>, k: nat)
    requires k < 8 == |want|
    ensures FromBits(want, k + 1) == if want[k] then Or(FromBits(want, k), Pow2(k)) else FromBits(want, k)
    ensures FromBits(want, k + 1) < 0x100
  {
    OrAddsFlag(want, k);
    Pow2Monotone(k + 1, 8);
    assert Pow2(8) == 0x100;
  }

  /** A bit position no button owns. */
  lemma SkipFlag(want: seq<bool>, k: nat)
    requires k < 8 == |want| && !want[k]
    ensures FromBits(want, k + 1) == FromBits(want, k)
  {
    AppendFlag(want, k);
  }

  method EncodeButtons0(buffer: array<byte>, st: GamepadState, ghost want: seq<bool>)
    requires buffer.Length == 9 && buffer[0] == 0 && want == Tests0(st)
    modifies buffer
    ensures buffer[0] == FromBits(want, 8)
    ensures forall j :: 0 <= j < buffer.Length && j != 0 ==> buffer[j] == old(buffer[j])
  {
    SetButton(buffer, 0, 0, st.buttons, Y, want);
    SetButton(buffer, 0, 1, st.buttons, X, want);
    SetButton(buffer, 0, 2, st.buttons, B, want);
    SetButton(buffer, 0, 3, st.buttons, A, want);
    SkipFlag(want, 4);
    SkipFlag(want, 5);
    SetButton(buffer, 0, 6, st.buttons, RIGHT, want);
    SetFlag(buffer, 0, 7, st.triggerRight > 0, want);
  }

  method EncodeButtons1(buffer: array<byte>, st: GamepadState, ghost want: seq<bool>)
    requires buffer.Length == 9 && buffer[1] == 0 && want == Tests1(st)
    modifies buffer
    ensures buffer[1] == FromBits(want, 8)
    ensures forall j :: 0 <= j < buffer.Length && j != 1 ==> buffer[j] == old(buffer[j])
  {
    SetButton(buffer, 1, 0, st.buttons, BACK, want);
    SetButton(buffer, 1, 1, st.buttons, START, want);
    SetButton(buffer, 1, 2, st.buttons, RIGHT_STICK, want);
    SetButton(buffer, 1, 3, st.buttons, LEFT_STICK, want);
    SetButton(buffer, 1, 4, st.buttons, HOME, want);
    SetButton(buffer, 1, 5, st.buttons, MISC, want);
    SkipFlag(want, 6);
    SkipFlag(want, 7);
    SetGripBit(buffer);
  }

  /** `buffer[1] |= BIT(8)`: a byte has no bit 8, so the assignment is lost in truncation. */
  method SetGripBit(buffer: array<byte>)
    requires buffer.Length == 9
    modifies buffer
    ensures buffer[..] == old(buffer[..])
  {
    GripBitIsLost(buffer[1]);
    buffer[1] := ToByte(Or(buffer[1], Pow2(8)));
  }

  lemma HighBitIsLost(x: nat, n: nat)
    requires x < Pow2(n)
    ensures Or(x, Pow2(n)) % Pow2(n) == x
  {
    ShlOne(n);
    OrDisjoint(x, 1, n);
    DivModUnique(x + Pow2(n), Pow2(n), 1, x);
  }

  lemma GripBitIsLost(b: byte)
    ensures ToByte(Or(b, Pow2(8))) == b
  {
    assert Pow2(8) == 0x100;
    HighBitIsLost(b, 8);
  }

  method EncodeButtons2(buffer: array<byte>, st: GamepadState, ghost want: seq<bool>)
    requires buffer.Length == 9 && buffer[2] == 0 && want == Tests2(st)
    modifies buffer
    ensures buffer[2] == FromBits(want, 8)
    ensures forall j :: 0 <= j < buffer.Length && j != 2 ==> buffer[j] == old(buffer[j])
  {
    SetButton(buffer, 2, 0, st.buttons, DPAD_DOWN, want);
    SetButton(buffer, 2, 1, st.buttons, DPAD_UP, want);
    SetButton(buffer, 2, 2, st.buttons, DPAD_RIGHT, want);
    SetButton(buffer, 2, 3, st.buttons, DPAD_LEFT, want);
    SkipFlag(want, 4);
    SkipFlag(want, 5);
    SetButton(buffer, 2, 6, st.buttons, LEFT, want);
    SetFlag(buffer, 2, 7, st.triggerLeft > 0, want);
  }

  /** Fills the zeroed nine-byte buffer of a state report. */
  method EncodeInto(buffer: array<byte>, st: GamepadState)
    requires buffer.Length == 9 && buffer[..] == Fill(9, 0)
    modifies buffer
    ensures buffer[..] == Encode(st)
  {
    assert forall i :: 0 <= i < 9 ==> buffer[i] == buffer[..][i];
    TestsAreFlags(st);
    EncodeButtons0(buffer, st, Tests0(st));
    EncodeButtons1(buffer, st, Tests1(st));
    EncodeButtons2(buffer, st, Tests2(st));
    WriteTwoU12le(buffer, 3, AxisRaw(st.leftX), AxisRaw(st.leftY));
    WriteTwoU12le(buffer, 6, AxisRaw(st.rightX), AxisRaw(st.rightY));
  }
}
