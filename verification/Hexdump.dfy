/** The line-splitting hex printer. */
module Hexdump {
  import opened Bytes
  import opened Queue
  import opened Buf

  const BYTES_PER_LINE := 16
  const SPACE: byte := 0x20

  /** A line handed to the log: text, or the overflow notice. */
  datatype Line = Text(text: seq<byte>) | Overflow

  function Digit(n: int): byte
    requires 0 <= n < 16
  {
    if n < 10 then 0x30 + n else 0x41 + n - 10
  }

  /** "%02X" */
  function Hex(b: byte): seq<byte> {
    [Digit(b / 16), Digit(b % 16)]
  }

  function LineText(chunk: seq<byte>): seq<byte> {
    if chunk == [] then []
    else if |chunk| == 1 then Hex(chunk[0])
    else Hex(chunk[0]) + [SPACE] + LineText(chunk[1..])
  }

  /** What the dump of data is: one full line per 16 bytes, the last one possibly shorter. */
  function Dump(data: seq<byte>): seq<Line> {
    if data == [] then []
    else if |data| <= BYTES_PER_LINE then [Text(LineText(data))]
    else [Text(LineText(data[..BYTES_PER_LINE]))] + Dump(data[BYTES_PER_LINE..])
  }

  /** A C string: the bytes before the first terminator. */
  function UpToNul(s: seq<byte>): seq<byte> {
    if s == [] || s[0] == 0 then [] else [s[0]] + UpToNul(s[1..])
  }

  // ----- A reader of dumps, independent of the printer -----

  function DigitValue(c: byte): Option<int> {
    if 0x30 <= c <= 0x39 then Some(c - 0x30)
    else if 0x41 <= c <= 0x46 then Some(c - 0x41 + 10)
    else None
  }

  function ReadHex(a: byte, b: byte): Option<int> {
    match (DigitValue(a), DigitValue(b))
    case (Some(hi), Some(lo)) => Some(16 * hi + lo)
    case _ => None
  }

  /** Reads "HH HH .. HH". */
  function ReadLine(text: seq<byte>): Option<seq<int>> {
    if |text| < 2 then None
    else
      var v := ReadHex(text[0], text[1]);
      if v.None? then None
      else if |text| == 2 then Some([v.value])
      else if text[2] != SPACE then None
      else
        var rest := ReadLine(text[3..]);
        if rest.None? then None else Some([v.value] + rest.value)
  }

  function ReadDump(lines: seq<Line>): Option<seq<int>> {
    if lines == [] then Some([])
    else if lines[0].Overflow? then None
    else
      var first, rest := ReadLine(lines[0].text), ReadDump(lines[1..]);
      if first.None? || rest.None? then None else Some(first.value + rest.value)
  }

  // ----- Lines -----

  lemma {:induction false} LineTextShape(chunk: seq<byte>)
    ensures |LineText(chunk)| == if chunk == [] then 0 else 3 * |chunk| - 1
    ensures 0 !in LineText(chunk)
  {
    if |chunk| > 1 {
      LineTextShape(chunk[1..]);
    }
  }

  lemma {:induction false} LineTextAppend(chunk: seq<byte>, b: byte)
    requires chunk != []
    ensures LineText(chunk + [b]) == LineText(chunk) + ([SPACE] + Hex(b))
  {
    assert (chunk + [b])[1..] == chunk[1..] + [b];
    if |chunk| == 1 {
      assert LineText([b]) == Hex(b);
    } else {
      LineTextAppend(chunk[1..], b);
    }
  }

  lemma {:induction false} UpToNulStops(text: seq<byte>, rest: seq<byte>)
    requires 0 !in text
    ensures UpToNul(text + [0] + rest) == text
  {
    if text != [] {
      assert (text + [0] + rest)[1..] == text[1..] + [0] + rest;
      UpToNulStops(text[1..], rest);
    }
  }

  lemma HexReadsBack(b: byte)
    ensures ReadHex(Hex(b)[0], Hex(b)[1]) == Some(b as int)
  {
  }

  function Ints(data: seq<byte>): seq<int> {
    seq(|data|, i requires 0 <= i < |data| => data[i] as int)
  }

  lemma {:induction false} LineReadsBack(chunk: seq<byte>)
    requires chunk != []
    ensures ReadLine(LineText(chunk)) == Some(Ints(chunk))
  {
    HexReadsBack(chunk[0]);
    if |chunk| > 1 {
      LineReadsBack(chunk[1..]);
      LineTextShape(chunk);
      assert LineText(chunk)[3..] == LineText(chunk[1..]);
      assert [chunk[0] as int] + Ints(chunk[1..]) == Ints(chunk);
    } else {
      assert Ints(chunk) == [chunk[0] as int];
    }
  }

  lemma ReadsOneLine(chunk: seq<byte>, lines: seq<Line>)
    requires chunk != [] && ReadDump(lines).Some?
    ensures ReadDump([Text(LineText(chunk))] + lines) == Some(Ints(chunk) + ReadDump(lines).value)
  {
    LineReadsBack(chunk);
    var all := [Text(LineText(chunk))] + lines;
    assert all[0] == Text(LineText(chunk)) && all[1..] == lines;
  }

  /** One line per started group of 16 bytes, and never an overflow notice. */
  lemma {:induction false} DumpShape(data: seq<byte>)
    ensures |Dump(data)| == (|data| + 15) / 16
    ensures Overflow !in Dump(data)
  {
    if |data| > BYTES_PER_LINE {
      DumpShape(data[BYTES_PER_LINE..]);
    }
  }

  /** Line k shows the bytes from 16 * k on: 16 of them, or what is left. */
  lemma {:induction false} DumpLine(data: seq<byte>, k: nat)
    requires 16 * k < |data|
    ensures k < |Dump(data)|
    ensures Dump(data)[k] == Text(LineText(data[16 * k..if 16 * k + 16 < |data| then 16 * k + 16 else |data|]))
  {
    if k > 0 {
      var tail := data[16..];
      DumpLine(tail, k - 1);
      assert tail[16 * (k - 1)..] == data[16 * k..];
      if 16 * k + 16 < |data| {
        assert tail[16 * (k - 1)..16 * k] == data[16 * k..16 * k + 16];
      } else {
        assert tail[16 * (k - 1)..|tail|] == data[16 * k..|data|];
      }
    } else if |data| <= 16 {
      assert data[0..|data|] == data;
    } else {
      assert data[0..16] == data[..16];
    }
  }

  /** Byte i of a line is two upper-case digits, the high one first, with a space between bytes. */
  lemma {:induction false} LineCharacters(chunk: seq<byte>, i: nat)
    requires i < |chunk|
    ensures |LineText(chunk)| == 3 * |chunk| - 1
    ensures LineText(chunk)[3 * i] == "0123456789ABCDEF"[chunk[i] / 16] as int
    ensures LineText(chunk)[3 * i + 1] == "0123456789ABCDEF"[chunk[i] % 16] as int
    ensures i + 1 < |chunk| ==> LineText(chunk)[3 * i + 2] == 0x20
  {
    LineTextShape(chunk);
    if i > 0 {
      LineCharacters(chunk[1..], i - 1);
      assert LineText(chunk)[3..] == LineText(chunk[1..]);
      var n := 3 * (i - 1);
      assert LineText(chunk)[3..][n] == LineText(chunk)[n + 3];
      assert LineText(chunk)[3..][n + 1] == LineText(chunk)[n + 4];
      assert i + 1 < |chunk| ==> LineText(chunk)[3..][n + 2] == LineText(chunk)[n + 5];
    }
  }

  /** Reading the lines in order gives back the data. */
  lemma {:induction false} DumpReadsBack(data: seq<byte>)
    ensures ReadDump(Dump(data)) == Some(Ints(data))
  {
    if data == [] {
    } else if |data| <= BYTES_PER_LINE {
      ReadsOneLine(data, []);
      assert [Text(LineText(data))] + [] == Dump(data);
      assert Ints(data) + [] == Ints(data);
    } else {
      var head, tail := data[..BYTES_PER_LINE], data[BYTES_PER_LINE..];
      DumpReadsBack(tail);
      ReadsOneLine(head, Dump(tail));
      assert Ints(head) + Ints(tail) == Ints(data);
    }
  }

  lemma DumpStep(data: seq<byte>, count: nat)
    requires data != [] && count == if |data| < BYTES_PER_LINE then |data| else BYTES_PER_LINE
    ensures Dump(data) == [Text(LineText(data[..count]))] + Dump(data[count..])
  {
    assert |data| <= BYTES_PER_LINE ==> data[..count] == data && data[count..] == [];
  }

  /** Data that dump alike are alike. */
  lemma DumpIsInjective(a: seq<byte>, b: seq<byte>)
    requires Dump(a) == Dump(b)
    ensures a == b
  {
    DumpReadsBack(a);
    DumpReadsBack(b);
    forall i | 0 <= i < |a| ensures |a| == |b| && a[i] == b[i] {
      assert Ints(a)[i] == Ints(b)[i];
    }
    assert |Ints(a)| == |Ints(b)|;
  }

  // ----- The printer -----

  /** Prints the bytes of one line; the 48-byte buffer is never too small. */
  method PrintBytes(linebuf: Buffer, data: array<byte>, i: nat, count: nat) returns (ok: bool)
    requires linebuf.Valid() && linebuf.store != data
    requires linebuf.Abs() == Fifo(0, [], 3 * BYTES_PER_LINE)
    requires 0 < count <= BYTES_PER_LINE && i + count <= data.Length
    modifies linebuf, linebuf.store
    ensures linebuf.Valid() && ok
    ensures linebuf.Abs() == Fifo(0, LineText(data[i..i + count]), 3 * BYTES_PER_LINE)
  {
    ok := true;
    var j := 0;
    ghost var bytes := data[i..i + count];
    while ok && j < count
      invariant ok && 0 <= j <= count && linebuf.Valid()
      invariant linebuf.Abs() == Fifo(0, LineText(bytes[..j]), 3 * BYTES_PER_LINE)
      decreases count - j
    {
      ghost var chunk := bytes[..j];
      assert bytes[..j + 1] == chunk + [data[i + j]];
      LineTextShape(chunk);
      if j == 0 {
        ok := linebuf.AddPrintf(Hex(data[i + j]));
        assert LineText(chunk) + Hex(data[i + j]) == LineText(chunk + [data[i + j]]);
      } else {
        LineTextAppend(chunk, data[i + j]);
        ok := linebuf.AddPrintf([SPACE] + Hex(data[i + j]));
      }
      j := j + 1;
    }
    assert bytes[..count] == bytes;
  }

  /** Terminates the line and reads it as a C string. */
  method TakeLine(linebuf: Buffer, ok: bool) returns (line: Line)
    requires linebuf.Valid() && linebuf.data == 0
    requires 0 !in linebuf.Contents()
    modifies linebuf, linebuf.store
    ensures linebuf.Valid()
    ensures line == if ok && old(Succeeds(linebuf.Abs(), Op.Add([0]))) then Text(old(linebuf.Contents())) else Overflow
  {
    ghost var text := linebuf.Contents();
    var terminated := false;
    if ok {
      terminated := linebuf.AddU8(0);
    }
    if ok && terminated {
      UpToNulStops(text, linebuf.store[linebuf.size..]);
      assert linebuf.store[linebuf.data..] == linebuf.Contents() + linebuf.store[linebuf.size..];
      line := Text(UpToNul(linebuf.store[linebuf.data..]));
    } else {
      line := Overflow;
    }
  }

  /** Prints one line of up to 16 bytes through the line buffer. */
  method PrintLine(linebuf: Buffer, data: array<byte>, i: nat, count: nat) returns (line: Line)
    requires linebuf.Valid() && linebuf.store != data && linebuf.store.Length == 3 * BYTES_PER_LINE
    requires 0 < count <= BYTES_PER_LINE && i + count <= data.Length
    modifies linebuf, linebuf.store
    ensures linebuf.Valid() && line == Text(LineText(data[i..i + count]))
  {
    linebuf.Reset();
    var ok := PrintBytes(linebuf, data, i, count);
    LineTextShape(data[i..i + count]);
    line := TakeLine(linebuf, ok);
  }

  method HexDump(data: array<byte>, len: nat) returns (lines: seq<Line>)
    requires len <= data.Length
    ensures lines == Dump(data[..len])
  {
    var store := new byte[3 * BYTES_PER_LINE];
    var linebuf := new Buffer(store);
    lines := [];
    var i := 0;
    while i < len
      invariant linebuf.Valid() && linebuf.store == store && fresh(linebuf) && fresh(store)
      invariant 0 <= i && data[..] == old(data[..])
      invariant lines + Dump(if i < len then data[i..len] else []) == Dump(data[..len])
      decreases len - i
    {
      var remaining := len - i;
      var count := if remaining < BYTES_PER_LINE then remaining else BYTES_PER_LINE;
      ghost var rest := data[i..len];
      var line := PrintLine(linebuf, data, i, count);
      assert rest[..count] == data[i..i + count];
      assert rest[count..] == data[i + count..len];
      DumpStep(rest, count);
      assert (lines + [line]) + Dump(rest[count..]) == lines + ([line] + Dump(rest[count..]));
      lines := lines + [line];
      i := i + BYTES_PER_LINE;
    }
  }
}
