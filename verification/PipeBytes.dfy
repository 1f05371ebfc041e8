/** The data side of pipe transfers: user vectors as lists of byte addresses, the
    ring buffer as a sequence, and the two chunk copies that connect them. */
module PipeBytes {
  import opened Arithmetic
  import opened Bytes

  datatype IoVector = IoVector(address: nat, length: nat)

  /** Addresses of one vector, in transfer order. */
  function Run(v: IoVector): (r: seq<nat>)
    ensures |r| == v.length
  {
    seq(v.length, i requires 0 <= i => v.address + i)
  }

  /** Addresses touched by a whole vectored transfer, in transfer order. */
  function Addresses(vs: seq<IoVector>): seq<nat> {
    if vs == [] then [] else Run(vs[0]) + Addresses(vs[1..])
  }

  function TotalLength(vs: seq<IoVector>): nat {
    if vs == [] then 0 else vs[0].length + TotalLength(vs[1..])
  }

  lemma {:induction false} AddressesCount(vs: seq<IoVector>)
    ensures |Addresses(vs)| == TotalLength(vs)
  {
    if vs != [] {
      AddressesCount(vs[1..]);
    }
  }

  lemma {:induction false} TotalLengthAppend(a: seq<IoVector>, v: IoVector)
    ensures TotalLength(a + [v]) == TotalLength(a) + v.length
  {
    if a == [] {
      assert a + [v] == [v];
      assert [v][1..] == [];
    } else {
      assert (a + [v])[1..] == a[1..] + [v];
      TotalLengthAppend(a[1..], v);
    }
  }

  lemma {:induction false} TotalLengthPrefix(vs: seq<IoVector>, i: nat)
    requires i <= |vs|
    ensures TotalLength(vs[..i]) <= TotalLength(vs)
    ensures i < |vs| ==> TotalLength(vs[..i + 1]) == TotalLength(vs[..i]) + vs[i].length
    decreases |vs| - i
  {
    if i == |vs| {
      assert vs[..i] == vs;
    } else {
      assert vs[..i + 1] == vs[..i] + [vs[i]];
      TotalLengthAppend(vs[..i], vs[i]);
      TotalLengthPrefix(vs, i + 1);
    }
  }

  /** The bytes still to be moved from the cursor (`index`, `offset`) inside its
      vector are consecutive addresses of the transfer. */
  lemma {:induction false} AddressesAtCursor(vs: seq<IoVector>, index: nat, offset: nat, n: nat)
    requires index < |vs| && offset + n <= vs[index].length
    ensures TotalLength(vs[..index]) + offset + n <= |Addresses(vs)|
    ensures var at := TotalLength(vs[..index]) + offset;
      Addresses(vs)[at..at + n] == Run(IoVector(vs[index].address + offset, n))
  {
    AddressesCount(vs);
    TotalLengthPrefix(vs, index + 1);
    TotalLengthPrefix(vs, index);
    if index > 0 {
      AddressesAtCursor(vs[1..], index - 1, offset, n);
      assert vs[..index] == [vs[0]] + vs[1..][..index - 1];
      var rest := TotalLength(vs[1..][..index - 1]) + offset;
      var at := vs[0].length + rest;
      assert at == TotalLength(vs[..index]) + offset;
      assert Addresses(vs)[at..at + n] == Addresses(vs[1..])[rest..rest + n];
    }
  }

  predicate InWindow(base: nat, size: nat, addresses: seq<nat>) {
    forall i :: 0 <= i < |addresses| ==> base <= addresses[i] < base + size
  }

  /** Every vector of positive length lies inside the window of `size` bytes at `base`. */
  ghost predicate VectorsInWindow(base: nat, size: nat, vs: seq<IoVector>) {
    forall i :: 0 <= i < |vs| && vs[i].length > 0 ==>
      base <= vs[i].address && vs[i].address + vs[i].length <= base + size
  }

  lemma {:induction false} VectorsGiveAddresses(base: nat, size: nat, vs: seq<IoVector>)
    requires VectorsInWindow(base, size, vs)
    ensures InWindow(base, size, Addresses(vs))
  {
    if vs != [] {
      VectorsGiveAddresses(base, size, vs[1..]);
    }
  }

  /** What a writer hands over: the bytes at `addresses`, in order. */
  function Gather(mem: seq<Byte>, base: nat, addresses: seq<nat>): (r: seq<Byte>)
    requires InWindow(base, |mem|, addresses)
    ensures |r| == |addresses|
  {
    seq(|addresses|, i requires 0 <= i < |addresses| => mem[addresses[i] - base])
  }

  /** User memory after a reader received `data`, byte by byte in order: when vectors
      overlap, the later byte wins. */
  function Scatter(mem: seq<Byte>, base: nat, addresses: seq<nat>, data: seq<Byte>): (r: seq<Byte>)
    requires |addresses| == |data| && InWindow(base, |mem|, addresses)
    ensures |r| == |mem|
  {
    if data == [] then mem
    else
      var n := |data| - 1;
      Scatter(mem, base, addresses[..n], data[..n])[addresses[n] - base := data[n]]
  }

  lemma {:induction false} ScatterCompose(mem: seq<Byte>, base: nat,
                                          a1: seq<nat>, d1: seq<Byte>, a2: seq<nat>, d2: seq<Byte>)
    requires |a1| == |d1| && |a2| == |d2|
    requires InWindow(base, |mem|, a1) && InWindow(base, |mem|, a2)
    ensures InWindow(base, |mem|, a1 + a2)
    ensures Scatter(mem, base, a1 + a2, d1 + d2) == Scatter(Scatter(mem, base, a1, d1), base, a2, d2)
    decreases |d2|
  {
    if d2 == [] {
      assert a1 + a2 == a1 && d1 + d2 == d1;
    } else {
      var n := |d2| - 1;
      ScatterCompose(mem, base, a1, d1, a2[..n], d2[..n]);
      assert (a1 + a2)[..|a1| + n] == a1 + a2[..n];
      assert (d1 + d2)[..|d1| + n] == d1 + d2[..n];
    }
  }

  /** A reader's memory changes only at the addresses it named. */
  lemma {:induction false} ScatterFrame(mem: seq<Byte>, base: nat, addresses: seq<nat>, data: seq<Byte>, i: nat)
    requires |addresses| == |data| && InWindow(base, |mem|, addresses)
    requires i < |mem| && base + i !in addresses
    ensures Scatter(mem, base, addresses, data)[i] == mem[i]
    decreases |data|
  {
    if data != [] {
      var n := |data| - 1;
      assert addresses[n] in addresses;
      ScatterFrame(mem, base, addresses[..n], data[..n], i);
    }
  }

  lemma GatherJoin(mem: seq<Byte>, base: nat, x: seq<nat>, y: seq<nat>)
    requires InWindow(base, |mem|, x) && InWindow(base, |mem|, y)
    ensures InWindow(base, |mem|, x + y) && Gather(mem, base, x + y) == Gather(mem, base, x) + Gather(mem, base, y)
  {
  }

  /** Where no address is named twice, what was received is what is there. */
  lemma {:induction false} ScatterReads(mem: seq<Byte>, base: nat, addresses: seq<nat>, data: seq<Byte>)
    requires |addresses| == |data| && InWindow(base, |mem|, addresses)
    requires forall i, j :: 0 <= i < j < |addresses| ==> addresses[i] != addresses[j]
    ensures Gather(Scatter(mem, base, addresses, data), base, addresses) == data
    decreases |data|
  {
    if data != [] {
      var n := |data| - 1;
      ScatterReads(mem, base, addresses[..n], data[..n]);
      var before, after := Scatter(mem, base, addresses[..n], data[..n]), Scatter(mem, base, addresses, data);
      forall i | 0 <= i < |data| ensures after[addresses[i] - base] == data[i] {
        if i < n {
          assert Gather(before, base, addresses[..n])[i] == data[..n][i];
        }
      }
    }
  }

  /** One `memcpy` into consecutive user addresses is a byte-by-byte scatter. */
  lemma {:induction false} ScatterChunk(mem: seq<Byte>, base: nat, address: nat, data: seq<Byte>)
    requires base <= address && address - base + |data| <= |mem|
    ensures InWindow(base, |mem|, Run(IoVector(address, |data|)))
    ensures Scatter(mem, base, Run(IoVector(address, |data|)), data) == Splice(mem, address - base, data)
    decreases |data|
  {
    if data != [] {
      var n := |data| - 1;
      ScatterChunk(mem, base, address, data[..n]);
      assert Run(IoVector(address, |data|))[..n] == Run(IoVector(address, n));
    }
  }

  // ---------------------------------------------------------------- the ring

  /** Position `i` places after `head` in a ring of `size` slots. */
  function Wrap(size: nat, head: nat, i: nat): (r: nat)
    requires head < size && i <= size
    ensures r < size
  {
    if head + i < size then head + i else head + i - size
  }

  lemma WrapIsModulo(size: nat, head: nat, i: nat)
    requires head < size && i <= size
    ensures (head + i) % size == Wrap(size, head, i)
  {
    if head + i < size {
      DivModUnique(head + i, size, 0, head + i);
    } else {
      DivModUnique(head + i, size, 1, head + i - size);
    }
  }

  /** Contents of a ring: `used` bytes starting at `head`. */
  function Ring(data: seq<Byte>, head: nat, used: nat): (r: seq<Byte>)
    requires head < |data| && used <= |data|
    ensures |r| == used
  {
    seq(used, i requires 0 <= i < used => data[Wrap(|data|, head, i)])
  }

  /** Copying a chunk into the free space after the contents appends it. */
  lemma RingAppend(data: seq<Byte>, head: nat, used: nat, chunk: seq<Byte>)
    requires head < |data| && used + |chunk| <= |data|
    requires var position := Wrap(|data|, head, used); position + |chunk| <= |data|
    ensures Ring(Splice(data, Wrap(|data|, head, used), chunk), head, used + |chunk|)
         == Ring(data, head, used) + chunk
  {
    var position := Wrap(|data|, head, used);
    var after := Splice(data, position, chunk);
    var left, right := Ring(after, head, used + |chunk|), Ring(data, head, used) + chunk;
    forall i | 0 <= i < |left| ensures left[i] == right[i] {
      var p := Wrap(|data|, head, i);
      if i < used {
        assert !(position <= p < position + |chunk|);
      } else {
        assert p == position + (i - used);
      }
    }
  }

  /** Copying a chunk out of the front removes exactly that prefix. */
  lemma RingTake(data: seq<Byte>, head: nat, used: nat, chunk: nat)
    requires head < |data| && used <= |data| && chunk <= used && head + chunk <= |data|
    ensures data[head..head + chunk] == Ring(data, head, used)[..chunk]
    ensures (head + chunk) % |data| == Wrap(|data|, head, chunk)
    ensures Ring(data, Wrap(|data|, head, chunk), used - chunk) == Ring(data, head, used)[chunk..]
  {
    WrapIsModulo(|data|, head, chunk);
  }
}
