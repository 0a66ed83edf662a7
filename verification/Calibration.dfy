/** From stick positions to what a console computes: calibration read over the wire, input
    read from reports, both from runs of the controller. */
module Calibration {
  import opened Bytes
  import opened Axis
  import opened Gamepad
  import opened Flash
  import opened Protocol
  import opened Controller

  /** The answer to a calibration read issued in state s, however it is framed. */
  function Answer(s: State, framing: Framing, address: u32, size: byte): Option<seq<byte>>
    requires s.Valid() && framing.Valid() && size <= 44
  {
    ServeChunk(address, Chunk(framing, size, s.report), s.flash, s.functionId)
  }

  /** Recovered within 17 units, on the same side of the centre, exact at the ends and at rest. */
  predicate Recovered(back: int, value: i16) {
    && -17 <= back - value <= 17
    && (value >= 0 ==> 0 <= back <= value)
    && (value <= 0 ==> value <= back <= 0)
    && (value in {INT16_MIN, 0, INT16_MAX} ==> back == value)
  }

  predicate SticksRecovered(pad: Pad, left: StickCal, right: StickCal, st: GamepadState) {
    && left.minX > 0 && left.maxX > 0 && left.minY > 0 && left.maxY > 0
    && right.minX > 0 && right.maxX > 0 && right.minY > 0 && right.maxY > 0
    && Recovered(Normalise(pad.leftX, left.minX, left.centerX, left.maxX), st.leftX)
    && Recovered(Normalise(pad.leftY, left.minY, left.centerY, left.maxY), st.leftY)
    && Recovered(Normalise(pad.rightX, right.minX, right.centerX, right.maxX), st.rightX)
    && Recovered(Normalise(pad.rightY, right.minY, right.centerY, right.maxY), st.rightY)
  }

  lemma RegionServed(s: State, framing: Framing, address: u32, size: byte)
    requires s.Valid() && framing.Valid() && size <= 44 && address + size <= FLASH_SIZE
    ensures var a := Answer(s, framing, address, size);
            a.Some? && |a.value| == REPORT_SIZE && a.value[19] == size &&
            ReadData(a.value) == Region(s.flash, address, size)
  {
    ServedChunk(address, Chunk(framing, size, s.report), s.flash, s.functionId);
  }

  lemma SticksOf(st: GamepadState)
    ensures SticksRecovered(View(st), STICK_CAL, STICK_CAL, st)
  {
    NormaliseRecovers(st.leftX);
    NormaliseRecovers(st.leftY);
    NormaliseRecovers(st.rightX);
    NormaliseRecovers(st.rightY);
  }

  /** The flash holds the stick calibration for a console to read. */
  predicate Calibrated(flash: Image) {
    && Region(flash, STICK_LEFT_AT, 9) == EncodeStickCalLeft(STICK_CAL)
    && Region(flash, STICK_RIGHT_AT, 9) == EncodeStickCalRight(STICK_CAL)
  }

  /** The flash of every new controller does. */
  lemma NewFlashIsCalibrated(inner: u12, outer: u12)
    ensures Calibrated(FlashImage(inner, outer))
  {
    StickRegions(inner, outer);
  }

  /** The console reads the two calibration regions in state s, decodes them, and recovers the
      sticks of st from nine input bytes. */
  predicate ConsoleRecovers(s: State, f1: Framing, f2: Framing, input: Input, st: GamepadState)
    requires s.Valid() && f1.Valid() && f2.Valid()
  {
    var left := Answer(s, f1, STICK_LEFT_AT, 9);
    var right := Answer(s, f2, STICK_RIGHT_AT, 9);
    && left.Some? && |left.value| == REPORT_SIZE && left.value[19] == 9
    && right.Some? && |right.value| == REPORT_SIZE && right.value[19] == 9
    && SticksRecovered(Decode(input), DecodeStickCalLeft(ReadData(left.value)),
                       DecodeStickCalRight(ReadData(right.value)), st)
  }

  lemma CalibratedRecovers(s: State, f1: Framing, f2: Framing, st: GamepadState)
    requires s.Valid() && f1.Valid() && f2.Valid() && Calibrated(s.flash)
    ensures ConsoleRecovers(s, f1, f2, Encode(st), st)
  {
    RegionServed(s, f1, STICK_LEFT_AT, 9);
    RegionServed(s, f2, STICK_RIGHT_AT, 9);
    DecodesStickCal(Region(s.flash, STICK_LEFT_AT, 9), Region(s.flash, STICK_RIGHT_AT, 9), STICK_CAL);
    DecodeEncode(st);
    SticksOf(st);
  }

  /** In every run, whenever the console reads the calibration (here after any first part of
      the run) and applies it to the input bytes of any report attempted in the whole run, it
      recovers the sticks of the gamepad state whose encoding was committed for that report. */
  lemma SticksEndToEnd(functionId: nat, flash: Image, before: seq<Action>, after: seq<Action>,
                       f1: Framing, f2: Framing, i: nat)
    requires Calibrated(flash) && f1.Valid() && f2.Valid()
    requires var end := Exec(Initial(functionId, flash), before + after);
             i < |end.trace| && end.trace[i].CarriesInput()
    ensures var mid := Exec(Initial(functionId, flash), before);
            var end := Exec(Initial(functionId, flash), before + after);
            var w := end.trace[i];
            && w.commit < |end.commits| && |w.bytes| == REPORT_SIZE
            && forall st :: end.commits[w.commit] == Encode(st) ==> ConsoleRecovers(mid, f1, f2, w.bytes[3..12], st)
  {
    var mid, end := Exec(Initial(functionId, flash), before), Exec(Initial(functionId, flash), before + after);
    FlashNeverChanges(Initial(functionId, flash), before);
    RunInv(functionId, flash, before + after);
    InvShowsCommits(end);
    var w := end.trace[i];
    assert ShowsOneCommit(w, end.commits);
    forall st | end.commits[w.commit] == Encode(st) ensures ConsoleRecovers(mid, f1, f2, w.bytes[3..12], st) {
      CalibratedRecovers(mid, f1, f2, st);
    }
  }
}
