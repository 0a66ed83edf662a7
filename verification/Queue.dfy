/** What a byte buffer is, abstractly: a bounded queue whose consumed prefix is
    only given back by a reset. */
module Queue {
  import opened Bytes

  datatype Fifo = Fifo(headroom: nat, contents: seq<byte>, capacity: nat) {
    predicate Valid() { headroom + |contents| <= capacity }

    function Tailroom(): nat
      requires Valid()
    {
      capacity - headroom - |contents|
    }
  }

  datatype Op =
    | Reset
    | Add(bytes: seq<byte>)
    | Print(text: seq<byte>)   // formatted text, as bytes without terminator
    | Pull(count: nat)
    | Resize(newSize: nat, fill: byte)

  predicate Succeeds(s: Fifo, op: Op)
    requires s.Valid()
  {
    match op
    case Reset => true
    case Add(bytes) => |bytes| <= s.Tailroom()
    case Print(text) => |text| < s.Tailroom()
    case Pull(count) => count <= |s.contents|
    case Resize(newSize, _) => newSize <= |s.contents| || newSize - |s.contents| <= s.Tailroom()
  }

  /** A call that fails leaves the queue as it was. */
  function Step(s: Fifo, op: Op): (r: Fifo)
    requires s.Valid()
    ensures r.Valid() && r.capacity == s.capacity
    ensures !Succeeds(s, op) ==> r == s
  {
    if !Succeeds(s, op) then s
    else
      match op
      case Reset => s.(headroom := 0, contents := [])
      case Add(bytes) => s.(contents := s.contents + bytes)
      case Print(text) => s.(contents := s.contents + text)
      case Pull(count) => s.(headroom := s.headroom + count, contents := s.contents[count..])
      case Resize(newSize, fill) =>
        if newSize <= |s.contents| then s.(contents := s.contents[..newSize])
        else s.(contents := s.contents + Fill(newSize - |s.contents|, fill))
  }

  // ----- Whole runs -----

  function Exec(s: Fifo, ops: seq<Op>): (r: Fifo)
    requires s.Valid()
    ensures r.Valid() && r.capacity == s.capacity
    decreases |ops|
  {
    if ops == [] then s else Exec(Step(s, ops[0]), ops[1..])
  }

  /** Bytes that one call appends, growth by resize counting as fill bytes. */
  function AddedBy(s: Fifo, op: Op): seq<byte>
    requires s.Valid()
  {
    if !Succeeds(s, op) then []
    else
      match op
      case Add(bytes) => bytes
      case Print(text) => text
      case Resize(newSize, fill) =>
        if newSize <= |s.contents| then [] else Fill(newSize - |s.contents|, fill)
      case _ => []
  }

  function PulledBy(s: Fifo, op: Op): seq<byte>
    requires s.Valid()
  {
    if op.Pull? && Succeeds(s, op) then s.contents[..op.count] else []
  }

  function Added(s: Fifo, ops: seq<Op>): seq<byte>
    requires s.Valid()
    decreases |ops|
  {
    if ops == [] then [] else AddedBy(s, ops[0]) + Added(Step(s, ops[0]), ops[1..])
  }

  function Pulled(s: Fifo, ops: seq<Op>): seq<byte>
    requires s.Valid()
    decreases |ops|
  {
    if ops == [] then [] else PulledBy(s, ops[0]) + Pulled(Step(s, ops[0]), ops[1..])
  }

  /** No reset and no shrinking resize anywhere in the run. */
  predicate KeepsBytes(s: Fifo, ops: seq<Op>)
    requires s.Valid()
    decreases |ops|
  {
    ops == [] ||
    (!ops[0].Reset? && (ops[0].Resize? ==> ops[0].newSize >= |s.contents|) &&
     KeepsBytes(Step(s, ops[0]), ops[1..]))
  }

  /** First in, first out over any run: nothing is lost, duplicated or reordered,
      and the space in front is exactly what was consumed. */
  lemma {:induction false} BytesLeaveInOrder(s: Fifo, ops: seq<Op>)
    requires s.Valid() && KeepsBytes(s, ops)
    ensures Pulled(s, ops) + Exec(s, ops).contents == s.contents + Added(s, ops)
    ensures Exec(s, ops).headroom == s.headroom + |Pulled(s, ops)|
    decreases |ops|
  {
    if ops != [] {
      var t := Step(s, ops[0]);
      StepKeepsBytes(s, ops[0]);
      BytesLeaveInOrder(t, ops[1..]);
      Regroup(PulledBy(s, ops[0]), Pulled(t, ops[1..]), Exec(t, ops[1..]).contents,
              t.contents, s.contents, AddedBy(s, ops[0]), Added(t, ops[1..]));
    }
  }

  lemma StepKeepsBytes(s: Fifo, op: Op)
    requires s.Valid() && !op.Reset? && (op.Resize? ==> op.newSize >= |s.contents|)
    ensures PulledBy(s, op) + Step(s, op).contents == s.contents + AddedBy(s, op)
    ensures Step(s, op).headroom == s.headroom + |PulledBy(s, op)|
  {
  }

  lemma Regroup(p: seq<byte>, ps: seq<byte>, end: seq<byte>, mid: seq<byte>,
                start: seq<byte>, a: seq<byte>, az: seq<byte>)
    requires p + mid == start + a && ps + end == mid + az
    ensures (p + ps) + end == start + (a + az)
  {
    assert (p + ps) + end == p + (ps + end);
    assert p + (mid + az) == (p + mid) + az;
    assert (start + a) + az == start + (a + az);
  }

  /** Consuming never makes room: since the last reset, an append fits exactly when
      everything ever appended still fits the capacity. */
  lemma {:induction false} RoomCountsEverythingAdded(before: Fifo, ops: seq<Op>, bytes: seq<byte>)
    requires before.Valid() && KeepsBytes(Step(before, Reset), ops)
    ensures var s := Step(before, Reset);
            Succeeds(Exec(s, ops), Add(bytes)) <==> |Added(s, ops)| + |bytes| <= before.capacity
    ensures var s := Step(before, Reset);
            Succeeds(Exec(s, ops), Print(bytes)) <==> |Added(s, ops)| + |bytes| < before.capacity
  {
    var s := Step(before, Reset);
    BytesLeaveInOrder(s, ops);
    assert |Pulled(s, ops) + Exec(s, ops).contents| == |s.contents + Added(s, ops)|;
  }

  /** A resize to n bytes fits exactly if they end within the capacity, counting what has been
      consumed in front of them, and never touches the bytes that stay. */
  lemma ResizeKeepsFront(s: Fifo, n: nat, fill: byte)
    requires s.Valid()
    ensures var r := Step(s, Resize(n, fill));
            && (Succeeds(s, Resize(n, fill)) <==> s.headroom + n <= s.capacity)
            && (s.headroom + n <= s.capacity ==>
                  |r.contents| == n && r.headroom == s.headroom &&
                  forall i :: 0 <= i < n ==> r.contents[i] == if i < |s.contents| then s.contents[i] else fill)
  {
  }

  /** A pull takes exactly the bytes in front, if there are enough. */
  lemma PullTakesFront(s: Fifo, n: nat)
    requires s.Valid()
    ensures Succeeds(s, Pull(n)) <==> n <= |s.contents|
    ensures n <= |s.contents| ==>
              |PulledBy(s, Pull(n))| == n && PulledBy(s, Pull(n)) + Step(s, Pull(n)).contents == s.contents
  {
  }

  /** What was in the buffer before a reset cannot be observed afterwards. */
  lemma ResetForgets(a: Fifo, b: Fifo, ops: seq<Op>)
    requires a.Valid() && b.Valid() && a.capacity == b.capacity
    ensures Exec(a, [Reset] + ops) == Exec(b, [Reset] + ops)
  {
  }
}
