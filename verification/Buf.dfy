/** The byte buffer: a window [data, data + size) moving over a fixed store. */
module Buf {
  import opened Bytes
  import opened Queue

  class Buffer {
    const store: array<byte>
    var data: nat
    var size: nat

    ghost predicate Valid()
      reads this
    {
      store.Length <= 0xFFFF && data + size <= store.Length
    }

    /** The queue this buffer implements. */
    ghost function Abs(): (r: Fifo)
      requires Valid()
      reads this, store
      ensures r.Valid()
    {
      Fifo(data, store[data..data + size], store.Length)
    }

    ghost function Contents(): seq<byte>
      requires Valid()
      reads this, store
    {
      Abs().contents
    }

    constructor (store: array<byte>)
      requires store.Length <= 0xFFFF
      ensures Valid() && this.store == store && Abs() == Fifo(0, [], store.Length)
    {
      this.store := store;
      data, size := 0, 0;
    }

    method Reset()
      requires Valid()
      modifies this
      ensures Valid() && Abs() == Step(old(Abs()), Op.Reset)
    {
      size := 0;
      data := 0;
    }

    function Tail(): nat
      reads this
    {
      data + size
    }

    function Headroom(): nat
      reads this
    {
      data
    }

    function Tailroom(): (r: nat)
      requires Valid()
      reads this, store
      ensures r == Abs().Tailroom()
      ensures Headroom() + size + r == store.Length
    {
      store.Length - Headroom() - size
    }

    method Resize(newSize: nat, value: byte) returns (ok: bool)
      requires Valid()
      modifies this, store
      ensures Valid() && ok == Succeeds(old(Abs()), Op.Resize(newSize, value))
      ensures Abs() == Step(old(Abs()), Op.Resize(newSize, value))
    {
      if newSize <= size {
        size := newSize;
        return true;
      }
      var count := newSize - size;
      if Tailroom() < count {
        return false;
      }
      var tail := Tail();
      forall i | tail <= i < tail + count {
        store[i] := value;
      }
      size := newSize;
      return true;
    }

    /** Consumes count bytes; on success `start` is where they still lie in the store. */
    method Pull(count: nat) returns (ok: bool, start: nat)
      requires Valid()
      modifies this
      ensures Valid() && ok == Succeeds(old(Abs()), Op.Pull(count))
      ensures Abs() == Step(old(Abs()), Op.Pull(count))
      ensures ok ==> start + count <= store.Length && store[start..start + count] == old(Contents())[..count]
    {
      if size < count {
        return false, 0;
      }
      ghost var contents := Contents();
      assert store[data..data + count] == contents[..count];
      assert store[data + count..data + size] == contents[count..];
      start := data;
      size := size - count;
      data := data + count;
      ok := true;
    }

    method PullU8() returns (ok: bool, value: byte)
      requires Valid()
      modifies this
      ensures Valid() && ok == Succeeds(old(Abs()), Op.Pull(1))
      ensures Abs() == Step(old(Abs()), Op.Pull(1))
      ensures ok ==> value == old(Contents())[0]
    {
      var start;
      ok, start := Pull(1);
      if !ok {
        return false, 0;
      }
      assert store[start..start + 1][0] == store[start];
      value := store[start];
    }

    method PullU32le() returns (ok: bool, value: u32)
      requires Valid()
      modifies this
      ensures Valid() && ok == Succeeds(old(Abs()), Op.Pull(4))
      ensures Abs() == Step(old(Abs()), Op.Pull(4))
      ensures ok ==> value == FromLe32(old(Contents())[..4])
    {
      var start;
      ok, start := Pull(4);
      if !ok {
        return false, 0;
      }
      value := FromLe32(store[start..start + 4]);
    }

    /** Claims count bytes at the tail for the caller to fill in. */
    method Claim(count: nat) returns (ok: bool, tail: nat)
      requires Valid()
      modifies this
      ensures Valid() && ok == (count <= old(Abs()).Tailroom())
      ensures data == old(data) && size == old(size) + if ok then count else 0
      ensures ok ==> tail == old(Tail())
    {
      if Tailroom() < count {
        return false, 0;
      }
      tail := Tail();
      size := size + count;
      ok := true;
    }

    method AddMem(src: array<byte>, from: nat, count: nat) returns (ok: bool)
      requires Valid() && src != store && from + count <= src.Length
      modifies this, store
      ensures Valid() && ok == Succeeds(old(Abs()), Op.Add(src[from..from + count]))
      ensures Abs() == Step(old(Abs()), Op.Add(src[from..from + count]))
    {
      var tail;
      ok, tail := Claim(count);
      if !ok {
        return;
      }
      forall i | 0 <= i < count {
        store[tail + i] := src[from + i];
      }
    }

    method AddU8(value: byte) returns (ok: bool)
      requires Valid()
      modifies this, store
      ensures Valid() && ok == Succeeds(old(Abs()), Op.Add([value]))
      ensures Abs() == Step(old(Abs()), Op.Add([value]))
    {
      var tail;
      ok, tail := Claim(1);
      if !ok {
        return;
      }
      store[tail] := value;
    }

    method AddU32le(value: u32) returns (ok: bool)
      requires Valid()
      modifies this, store
      ensures Valid() && ok == Succeeds(old(Abs()), Op.Add(Le32(value)))
      ensures Abs() == Step(old(Abs()), Op.Add(Le32(value)))
    {
      var tail;
      ok, tail := Claim(4);
      if !ok {
        return;
      }
      StoreU32le(tail, value);
      Appended(old(store[..]), data, tail, Le32(value));
      assert store[data..data + size] == store[..][data..data + size];
      assert old(Contents()) == old(store[..])[data..tail];
    }

    method StoreU32le(at: nat, value: u32)
      requires at + 4 <= store.Length
      modifies store
      ensures store[..] == Patch(old(store[..]), at, Le32(value))
    {
      store[at] := value % 0x100;
      store[at + 1] := value / 0x100 % 0x100;
      store[at + 2] := value / 0x1_0000 % 0x100;
      store[at + 3] := value / 0x100_0000 % 0x100;
    }

    /** vsnprintf into the free space: as much text as fits before a terminator is
        written there even when the call fails, but never becomes contents. */
    method AddPrintf(text: seq<byte>) returns (ok: bool)
      requires Valid()
      modifies this, store
      ensures Valid() && ok == Succeeds(old(Abs()), Op.Print(text))
      ensures Abs() == Step(old(Abs()), Op.Print(text))
    {
      var tailroom := Tailroom();
      var tail := Tail();
      if tailroom > 0 {
        var written := if |text| < tailroom then |text| else tailroom - 1;
        forall i | 0 <= i < written {
          store[tail + i] := text[i];
        }
        store[tail + written] := 0;
      }
      if |text| >= tailroom {
        return false;
      }
      size := size + |text|;
      return true;
    }
  }

  lemma Appended(image: seq<byte>, data: nat, tail: nat, bytes: seq<byte>)
    requires data <= tail && tail + |bytes| <= |image|
    ensures Patch(image, tail, bytes)[data..tail + |bytes|] == image[data..tail] + bytes
  {
  }

  /** A word appended behind any queue is, once the queue in front is consumed, the word read. */
  lemma WordThroughQueue(s: Fifo, v: u32)
    requires s.Valid() && Succeeds(s, Op.Add(Le32(v)))
    ensures var t := Step(Step(s, Op.Add(Le32(v))), Op.Pull(|s.contents|));
            Succeeds(t, Op.Pull(4)) && FromLe32(t.contents[..4]) == v &&
            Step(t, Op.Pull(4)).contents == []
  {
    Le32RoundTrip(v, []);
    assert (s.contents + Le32(v))[|s.contents|..] == Le32(v);
  }
}
