/** The controller's answer to one output report of the console, as a pure function. */
module Protocol {
  import opened Bytes
  import opened Flash

  const OUTPUT_REPORT_RUMBLE_AND_SUBCMD: byte := 0x01
  const OUTPUT_REPORT_RUMBLE: byte := 0x10
  const OUTPUT_REPORT_USB_CMD: byte := 0x80

  const USB_CMD_CONN_STATUS: byte := 0x01
  const USB_CMD_HANDSHAKE: byte := 0x02
  const USB_CMD_SET_BAUDRATE_3M: byte := 0x03

  const SUBCMD_MANUAL_BT_PAIRING: byte := 0x01
  const SUBCMD_REQ_DEVINFO: byte := 0x02
  const SUBCMD_SET_REPORT_MODE: byte := 0x03
  const SUBCMD_TRIGGERS_ELAPSED: byte := 0x04
  const SUBCMD_LOW_POWER_MODE: byte := 0x08
  const SUBCMD_FLASH_READ: byte := 0x10
  const SUBCMD_SET_PLAYER_LEDS: byte := 0x30
  const SUBCMD_SET_HOME_LED: byte := 0x38
  const SUBCMD_ENABLE_IMU: byte := 0x40
  const SUBCMD_ENABLE_RUMBLE: byte := 0x48

  const RESPONSE_SUBCMD: byte := 0x21
  const RESPONSE_REPORT: byte := 0x30
  const RESPONSE_USB_CMD: byte := 0x81
  const CONTROLLER_TYPE_PRO: byte := 0x03

  const REPORT_SIZE := 64

  /** Position of the subcommand id in a request: report id, packet number, two rumble words. */
  const SUBCMD_AT := 10

  /** What a request does: whether it advances the report timer, and the reply, if any. */
  datatype Reaction = Reaction(ticks: bool, reply: Option<seq<byte>>)

  const SILENT := Reaction(false, None)

  /** What a subcommand asks for: nothing, or an acknowledged reply with a payload. */
  datatype Plan = Ignore | Answer(ack: byte, payload: seq<byte>)

  function ArgBytes(id: byte): nat {
    if id == SUBCMD_FLASH_READ then 5
    else if id in {SUBCMD_LOW_POWER_MODE, SUBCMD_ENABLE_IMU, SUBCMD_SET_REPORT_MODE,
                   SUBCMD_ENABLE_RUMBLE, SUBCMD_SET_PLAYER_LEDS} then 1
    else 0
  }

  function DeviceInfo(functionId: nat): seq<byte> {
    [0x03, 0x49, CONTROLLER_TYPE_PRO, 0x02, ToByte(functionId), 0, 0, 0, 0, 0, 0x03, 0x02]
  }

  function PlanOf(id: byte, args: seq<byte>, flash: seq<byte>, functionId: nat): Plan
    requires |flash| == FLASH_SIZE
  {
    if |args| < ArgBytes(id) then Ignore
    else if id == SUBCMD_MANUAL_BT_PAIRING then Answer(0x81, [])
    else if id == SUBCMD_REQ_DEVINFO then Answer(0x82, DeviceInfo(functionId))
    else if id == SUBCMD_TRIGGERS_ELAPSED then Answer(0x83, [])
    else if id == SUBCMD_FLASH_READ then
      var address, size := FromLe32(args[..4]), args[4] as int;
      if address + size > FLASH_SIZE then Ignore
      else Answer(0x90, args[..5] + flash[address..address + size])
    else if ArgBytes(id) == 1 || id == SUBCMD_SET_HOME_LED then Answer(0x80, [])
    else Answer(0x80, [0x03])
  }

  /** The bytes in front of every subcommand payload: timer and input state are those of the report. */
  function Header(report: seq<byte>, ack: byte, id: byte): (r: seq<byte>)
    requires |report| == REPORT_SIZE
    ensures |r| == 15
  {
    [RESPONSE_SUBCMD, report[1]] + report[2..13] + [ack, id]
  }

  /** Cut or zero-padded to the report size; impossible when a buffer of cap bytes cannot hold it. */
  function Sized(cap: nat, bytes: seq<byte>): (r: Option<seq<byte>>)
    ensures r.Some? ==> |r.value| == REPORT_SIZE
  {
    if |bytes| > cap then None
    else if REPORT_SIZE <= |bytes| then Some(bytes[..REPORT_SIZE])
    else if REPORT_SIZE <= cap then Some(bytes + Fill(REPORT_SIZE - |bytes|, 0))
    else None
  }

  function RespondSubcmd(cap: nat, req: seq<byte>, report: seq<byte>, flash: seq<byte>, functionId: nat): Reaction
    requires |req| > 0 && |report| == REPORT_SIZE && |flash| == FLASH_SIZE
  {
    if |req| <= SUBCMD_AT then SILENT
    else
      var id := req[SUBCMD_AT];
      match PlanOf(id, req[SUBCMD_AT + 1..], flash, functionId)
      case Ignore => SILENT
      case Answer(ack, payload) => Reaction(true, Sized(cap, Header(report, ack, id) + payload))
  }

  function ConnStatus(functionId: nat): seq<byte> {
    [RESPONSE_USB_CMD, USB_CMD_CONN_STATUS, 0, CONTROLLER_TYPE_PRO, 0, 0, 0, 0, 0, ToByte(functionId)]
  }

  function RespondUsb(cap: nat, req: seq<byte>, functionId: nat): Reaction {
    if |req| < 2 then SILENT
    else if req[1] == USB_CMD_CONN_STATUS then Reaction(false, Sized(cap, ConnStatus(functionId)))
    else if req[1] == USB_CMD_HANDSHAKE then Reaction(false, Sized(cap, [RESPONSE_USB_CMD, USB_CMD_HANDSHAKE]))
    else if req[1] == USB_CMD_SET_BAUDRATE_3M && 2 <= cap then
      Reaction(false, Some([RESPONSE_USB_CMD, USB_CMD_SET_BAUDRATE_3M]))
    else SILENT
  }

  /** The reaction to request bytes that arrived in a buffer of cap bytes. */
  function Respond(cap: nat, req: seq<byte>, report: seq<byte>, flash: seq<byte>, functionId: nat): Reaction
    requires |report| == REPORT_SIZE && |flash| == FLASH_SIZE
  {
    if req == [] then SILENT
    else if req[0] == OUTPUT_REPORT_RUMBLE_AND_SUBCMD then RespondSubcmd(cap, req, report, flash, functionId)
    else if req[0] == OUTPUT_REPORT_USB_CMD then RespondUsb(cap, req, functionId)
    else SILENT
  }

  // ----- What a reply depends on -----

  predicate IsSubcmd(req: seq<byte>) {
    |req| > SUBCMD_AT && req[0] == OUTPUT_REPORT_RUMBLE_AND_SUBCMD &&
    |req| > SUBCMD_AT + ArgBytes(req[SUBCMD_AT])
  }

  predicate IsUsbCmd(req: seq<byte>) {
    |req| > 1 && req[0] == OUTPUT_REPORT_USB_CMD
  }

  /** The same complete command: report id, command id, and for a flash read its arguments. */
  predicate SameCommand(a: seq<byte>, b: seq<byte>) {
    || (IsUsbCmd(a) && IsUsbCmd(b) && a[1] == b[1])
    || (IsSubcmd(a) && IsSubcmd(b) && a[SUBCMD_AT] == b[SUBCMD_AT] &&
        (a[SUBCMD_AT] == SUBCMD_FLASH_READ ==> a[11..16] == b[11..16]))
  }

  /** Packet number, rumble words, ignored arguments and trailing bytes never reach a reply. */
  lemma SameCommandSameReaction(cap: nat, a: seq<byte>, b: seq<byte>, report: seq<byte>, flash: seq<byte>,
                                functionId: nat)
    requires |report| == REPORT_SIZE && |flash| == FLASH_SIZE && SameCommand(a, b)
    ensures Respond(cap, a, report, flash, functionId) == Respond(cap, b, report, flash, functionId)
  {
    if IsSubcmd(a) && IsSubcmd(b) && a[SUBCMD_AT] == SUBCMD_FLASH_READ {
      var x, y := a[SUBCMD_AT + 1..], b[SUBCMD_AT + 1..];
      assert x[..5] == a[11..16] == b[11..16] == y[..5];
      assert x[..4] == x[..5][..4] == y[..5][..4] == y[..4];
      assert x[4] == x[..5][4] == y[..5][4] == y[4];
    }
  }

  /** Exactly which requests advance the timer. */
  lemma TicksExactly(cap: nat, req: seq<byte>, report: seq<byte>, flash: seq<byte>, functionId: nat)
    requires |report| == REPORT_SIZE && |flash| == FLASH_SIZE
    ensures Respond(cap, req, report, flash, functionId).ticks <==>
      IsSubcmd(req) && (req[SUBCMD_AT] == SUBCMD_FLASH_READ ==> FromLe32(req[11..15]) + req[15] as int <= FLASH_SIZE)
  {
  }

  /** Exactly which requests are answered through the event loop's 64-byte buffer: of the
      subcommands that tick, all but a flash read of more than 44 bytes. */
  lemma RepliesExactly(req: seq<byte>, report: seq<byte>, flash: seq<byte>, functionId: nat)
    requires |report| == REPORT_SIZE && |flash| == FLASH_SIZE
    ensures var r := Respond(REPORT_SIZE, req, report, flash, functionId);
            r.reply.Some? <==>
              || (r.ticks && (req[SUBCMD_AT] == SUBCMD_FLASH_READ ==> req[15] <= 44))
              || (IsUsbCmd(req) && req[1] in {USB_CMD_CONN_STATUS, USB_CMD_HANDSHAKE, USB_CMD_SET_BAUDRATE_3M})
  {
  }

  /** What every subcommand reply carries: the report's timer, its status byte, its nine
      input bytes and its vibrator byte, at the same positions. */
  lemma SubcmdReplyShows(cap: nat, req: seq<byte>, report: seq<byte>, flash: seq<byte>, functionId: nat)
    requires |report| == REPORT_SIZE && |flash| == FLASH_SIZE
    requires var r := Respond(cap, req, report, flash, functionId); r.ticks && r.reply.Some?
    ensures var reply := Respond(cap, req, report, flash, functionId).reply.value;
            |reply| == REPORT_SIZE && reply[0] == RESPONSE_SUBCMD && reply[1..13] == report[1..13] &&
            reply[14] == req[SUBCMD_AT]
  {
  }

  /** Through the 64-byte buffer a subcommand reply is never cut: behind the header it holds
      the whole payload, and zeros behind that, whatever the buffer held before. */
  lemma SubcmdReplyIsWhole(req: seq<byte>, report: seq<byte>, flash: seq<byte>, functionId: nat)
    requires |report| == REPORT_SIZE && |flash| == FLASH_SIZE
    requires var r := Respond(REPORT_SIZE, req, report, flash, functionId); r.ticks && r.reply.Some?
    ensures IsSubcmd(req)
    ensures var plan := PlanOf(req[SUBCMD_AT], req[SUBCMD_AT + 1..], flash, functionId);
            plan.Answer? && |plan.payload| <= 49 &&
            Respond(REPORT_SIZE, req, report, flash, functionId).reply.value ==
              Header(report, plan.ack, req[SUBCMD_AT]) + plan.payload + Fill(49 - |plan.payload|, 0)
  {
  }

  // ----- Reading the flash in chunks -----

  /** Everything in a flash read request that does not matter. */
  datatype Framing = Framing(packetNum: byte, rumble: seq<byte>, trailing: seq<byte>) {
    predicate Valid() { |rumble| == 8 }
  }

  function ReadRequest(f: Framing, address: u32, size: byte): (r: seq<byte>)
    requires f.Valid()
  {
    [OUTPUT_REPORT_RUMBLE_AND_SUBCMD, f.packetNum] + f.rumble + [SUBCMD_FLASH_READ] +
    Le32(address) + [size] + f.trailing
  }

  lemma ReadRequestParts(f: Framing, address: u32, size: byte)
    requires f.Valid()
    ensures var req := ReadRequest(f, address, size);
            IsSubcmd(req) && req[SUBCMD_AT] == SUBCMD_FLASH_READ &&
            req[11..15] == Le32(address) && req[15] == size && req[11..16] == Le32(address) + [size]
  {
  }

  /** A flash read through the 64-byte buffer is answered exactly when its true end lies in
      the flash and it asks for at most 44 bytes; the answer echoes the request, holds the
      slice, and is zero behind it. */
  lemma FlashReadReply(f: Framing, address: u32, size: byte, report: seq<byte>, flash: seq<byte>, functionId: nat)
    requires f.Valid() && |report| == REPORT_SIZE && |flash| == FLASH_SIZE
    ensures var r := Respond(REPORT_SIZE, ReadRequest(f, address, size), report, flash, functionId);
            && (r.ticks <==> address + size <= FLASH_SIZE)
            && (r.reply.Some? <==> address + size <= FLASH_SIZE && size <= 44)
            && (r.reply.Some? ==>
                 r.reply.value == Header(report, 0x90, SUBCMD_FLASH_READ) + Le32(address) + [size] +
                                  flash[address..address + size] + Fill(44 - size, 0))
  {
    var req := ReadRequest(f, address, size);
    ReadRequestParts(f, address, size);
    TicksExactly(REPORT_SIZE, req, report, flash, functionId);
    RepliesExactly(req, report, flash, functionId);
    Le32RoundTrip(address, []);
    var args := req[SUBCMD_AT + 1..];
    assert args[..5] == req[11..16];
    assert args[..4] == req[11..15];
  }

  /** The data bytes of a flash read reply. */
  function ReadData(reply: seq<byte>): seq<byte>
    requires |reply| == REPORT_SIZE && reply[19] <= 44
  {
    reply[20..20 + reply[19]]
  }

  /** One chunk: how it is framed, how long it is, and the report at the time it is served. */
  datatype Chunk = Chunk(framing: Framing, size: byte, report: seq<byte>) {
    predicate Valid() { framing.Valid() && size <= 44 && |report| == REPORT_SIZE }
  }

  function TotalSize(chunks: seq<Chunk>): nat {
    if chunks == [] then 0 else chunks[0].size + TotalSize(chunks[1..])
  }

  function ServeChunk(address: u32, c: Chunk, flash: seq<byte>, functionId: nat): Option<seq<byte>>
    requires |flash| == FLASH_SIZE && c.Valid()
  {
    Respond(REPORT_SIZE, ReadRequest(c.framing, address, c.size), c.report, flash, functionId).reply
  }

  /** Concatenated data of the replies to consecutive reads starting at address; None as
      soon as one is not answered. */
  function ReadChunks(address: u32, chunks: seq<Chunk>, flash: seq<byte>, functionId: nat): Option<seq<byte>>
    requires |flash| == FLASH_SIZE && forall k :: 0 <= k < |chunks| ==> chunks[k].Valid()
    decreases |chunks|
  {
    if chunks == [] then Some([])
    else
      assert chunks[0].Valid();
      var reply := ServeChunk(address, chunks[0], flash, functionId);
      if reply.None? || |reply.value| != REPORT_SIZE || reply.value[19] > 44 then None
      else if address + chunks[0].size >= 0x1_0000_0000 then None
      else
        var rest := ReadChunks(address + chunks[0].size, chunks[1..], flash, functionId);
        if rest.None? then None else Some(ReadData(reply.value) + rest.value)
  }

  lemma ServedChunk(address: u32, c: Chunk, flash: seq<byte>, functionId: nat)
    requires |flash| == FLASH_SIZE && c.Valid() && address + c.size <= FLASH_SIZE
    ensures var reply := ServeChunk(address, c, flash, functionId);
            reply.Some? && |reply.value| == REPORT_SIZE && reply.value[19] == c.size &&
            ReadData(reply.value) == flash[address..address + c.size]
  {
    FlashReadReply(c.framing, address, c.size, c.report, flash, functionId);
  }

  lemma FirstChunk(address: u32, chunks: seq<Chunk>, flash: seq<byte>, functionId: nat, tail: seq<byte>)
    requires |flash| == FLASH_SIZE && forall k :: 0 <= k < |chunks| ==> chunks[k].Valid()
    requires chunks != [] && address + chunks[0].size <= FLASH_SIZE
    requires ReadChunks(address + chunks[0].size, chunks[1..], flash, functionId) == Some(tail)
    ensures ReadChunks(address, chunks, flash, functionId) == Some(flash[address..address + chunks[0].size] + tail)
  {
    assert chunks[0].Valid();
    ServedChunk(address, chunks[0], flash, functionId);
  }

  lemma OneMoreChunk(address: u32, chunks: seq<Chunk>, flash: seq<byte>, functionId: nat, mid: nat, end: nat)
    requires |flash| == FLASH_SIZE && forall k :: 0 <= k < |chunks| ==> chunks[k].Valid()
    requires chunks != [] && mid == address + chunks[0].size && mid <= end <= FLASH_SIZE
    requires ReadChunks(mid, chunks[1..], flash, functionId) == Some(flash[mid..end])
    ensures ReadChunks(address, chunks, flash, functionId) == Some(flash[address..end])
  {
    Slices(flash, address, mid, end);
    FirstChunk(address, chunks, flash, functionId, flash[mid..end]);
  }

  lemma Slices(bytes: seq<byte>, start: nat, mid: nat, end: nat)
    requires start <= mid <= end <= |bytes|
    ensures bytes[start..mid] + bytes[mid..end] == bytes[start..end]
  {
  }

  /** However a range of the flash is cut into chunks, framed, and interleaved with changing
      reports, the data put together are the slice of the flash. */
  lemma {:induction false} ChunksReassemble(address: u32, chunks: seq<Chunk>, flash: seq<byte>, functionId: nat)
    requires |flash| == FLASH_SIZE && forall k :: 0 <= k < |chunks| ==> chunks[k].Valid()
    requires address + TotalSize(chunks) <= FLASH_SIZE
    ensures ReadChunks(address, chunks, flash, functionId) == Some(flash[address..address + TotalSize(chunks)])
    decreases |chunks|
  {
    if chunks == [] {
      assert flash[address..address] == [];
    } else {
      var mid := address + chunks[0].size;
      ChunksReassemble(mid, chunks[1..], flash, functionId);
      OneMoreChunk(address, chunks, flash, functionId, mid, mid + TotalSize(chunks[1..]));
    }
  }
}
