/** Packets, the fragments they are cut into, and putting them together again. */
module Fragments {
  import opened Words

  type Packet = seq<byte>

  datatype Option<+T> = None | Some(value: T)

  /** A range of a packet's bytes, marked when it is the packet's first or last. */
  datatype Fragment = Fragment(first: bool, last: bool, data: seq<byte>)

  /** A sliding window of identifiers, closed under wrapping. */
  datatype Window = Window(baseId: u32, size: u32) {
    predicate Contains(id: u32) {
      WrapSub(id, baseId) < size
    }
  }

  /** A window holds exactly the identifiers of the `size` indices from its base on. */
  lemma {:induction false} WindowHolds(w: Window, base: nat, id: u32)
    requires Wire(base) == w.baseId
    ensures w.Contains(id) <==> exists k :: base <= k < base + w.size && Wire(k) == id
  {
    UnwrapWire(base, id);
    forall k | base <= k < base + w.size && Wire(k) == id
      ensures w.Contains(id)
    {
      WireDistance(base, k);
    }
    if w.Contains(id) {
      assert Wire(Unwrap(base, id)) == id;
    }
  }

  // ---- cutting ----

  /** The fragments of the rest of a packet; every one but the last is exactly `size` long. */
  function Split(rest: Packet, first: bool, size: nat): (fs: seq<Fragment>)
    requires size > 0
    ensures |fs| > 0
    decreases |rest|
  {
    if |rest| > size then [Fragment(first, false, rest[..size])] + Split(rest[size..], false, size)
    else [Fragment(first, true, rest)]
  }

  function Fragmentize(packet: Packet, size: nat): (fs: seq<Fragment>)
    requires size > 0
    ensures |fs| > 0
  {
    Split(packet, true, size)
  }

  function FragmentizeAll(packets: seq<Packet>, size: nat): seq<Fragment>
    requires size > 0
    decreases |packets|
  {
    if packets == [] then []
    else FragmentizeAll(packets[..|packets| - 1], size) + Fragmentize(packets[|packets| - 1], size)
  }

  predicate SizeIsValid(f: Fragment, size: nat) {
    if f.last then |f.data| <= size else |f.data| == size
  }

  /** Which bytes, and which marks, the i-th fragment of a packet carries. */
  lemma {:induction false} SplitShape(rest: Packet, first: bool, size: nat, i: nat)
    requires size > 0 && i < |Split(rest, first, size)|
    ensures var f := Split(rest, first, size)[i];
      && f.first == (first && i == 0)
      && f.last == (i == |Split(rest, first, size)| - 1)
      && SizeIsValid(f, size)
      && i * size <= |rest|
      && (f.last || (i + 1) * size < |rest|)
      && f.data == if f.last then rest[i * size..] else rest[i * size..(i + 1) * size]
    decreases i
  {
    if i > 0 {
      var tail := Split(rest[size..], false, size);
      assert Split(rest, first, size)[i] == tail[i - 1];
      SplitShape(rest[size..], false, size, i - 1);
      Distribute(i, size);
      if tail[i - 1].last {
        assert rest[size..][(i - 1) * size..] == rest[i * size..];
      } else {
        assert rest[size..][(i - 1) * size..i * size] == rest[i * size..(i + 1) * size];
      }
    }
  }

  lemma {:induction false} Distribute(i: nat, size: nat)
    requires i > 0
    ensures i * size == (i - 1) * size + size && (i + 1) * size == i * size + size
    ensures i * size >= size
  {
  }

  lemma {:induction false} AllSizesValid(packets: seq<Packet>, size: nat)
    requires size > 0
    ensures forall f :: f in FragmentizeAll(packets, size) ==> SizeIsValid(f, size)
    decreases |packets|
  {
    if packets != [] {
      hide Split, Assemble;
      var before, p := packets[..|packets| - 1], packets[|packets| - 1];
      AllSizesValid(before, size);
      forall i | 0 <= i < |Fragmentize(p, size)|
        ensures SizeIsValid(Fragmentize(p, size)[i], size)
      {
        SplitShape(p, true, size, i);
      }
    }
  }

  // ---- putting together ----

  /** A packet under construction and the packets completed so far. */
  datatype Assembly = Assembly(build: Option<Packet>, done: seq<Packet>)

  const NOTHING := Assembly(None, [])

  /** Appends a fragment to the packet under construction, starting one if there is none. */
  function Append(a: Assembly, f: Fragment): Assembly {
    var bytes := (if a.build.Some? then a.build.value else []) + f.data;
    if f.last then Assembly(None, a.done + [bytes]) else Assembly(Some(bytes), a.done)
  }

  function Assemble(a: Assembly, fs: seq<Fragment>): Assembly
    decreases |fs|
  {
    if fs == [] then a else Append(Assemble(a, fs[..|fs| - 1]), fs[|fs| - 1])
  }

  lemma {:induction false} AssembleConcat(a: Assembly, fs: seq<Fragment>, gs: seq<Fragment>)
    ensures Assemble(a, fs + gs) == Assemble(Assemble(a, fs), gs)
    decreases |gs|
  {
    if gs == [] {
      assert fs + gs == fs;
    } else {
      assert (fs + gs)[..|fs + gs| - 1] == fs + gs[..|gs| - 1];
      AssembleConcat(a, fs, gs[..|gs| - 1]);
    }
  }

  /** Completed packets are only ever added to. */
  lemma {:induction false} AssembleGrows(a: Assembly, fs: seq<Fragment>)
    ensures a.done <= Assemble(a, fs).done
    decreases |fs|
  {
    if fs != [] {
      AssembleGrows(a, fs[..|fs| - 1]);
    }
  }

  lemma {:induction false} AssembleSplit(a: Assembly, bytes: Packet, rest: Packet, first: bool, size: nat)
    requires size > 0
    requires bytes == if a.build.Some? then a.build.value else []
    ensures Assemble(a, Split(rest, first, size)) == Assembly(None, a.done + [bytes + rest])
    decreases |rest|
  {
    var fs := Split(rest, first, size);
    AssembleConcat(a, fs[..1], fs[1..]);
    assert fs == fs[..1] + fs[1..];
    assert fs[..1][..0] == [];
    assert Assemble(a, fs[..1]) == Append(a, fs[0]);
    if |rest| > size {
      assert bytes + rest == bytes + rest[..size] + rest[size..];
      AssembleSplit(Append(a, fs[0]), bytes + rest[..size], rest[size..], false, size);
    }
  }

  lemma {:induction false} AssembleOne(done: seq<Packet>, p: Packet, size: nat)
    requires size > 0
    ensures Assemble(Assembly(None, done), Fragmentize(p, size)) == Assembly(None, done + [p])
  {
    AssembleSplit(Assembly(None, done), [], p, true, size);
    assert [] + p == p;
  }

  /** Assembling what was cut gives back the packets, in order, with nothing left over. */
  lemma {:induction false} AssembleFragmentizeAll(packets: seq<Packet>, size: nat)
    requires size > 0
    ensures Assemble(NOTHING, FragmentizeAll(packets, size)) == Assembly(None, packets)
    decreases |packets|
  {
    if packets != [] {
      hide Assemble, Fragmentize;
      var before, p := packets[..|packets| - 1], packets[|packets| - 1];
      AssembleFragmentizeAll(before, size);
      AssembleConcat(NOTHING, FragmentizeAll(before, size), Fragmentize(p, size));
      AssembleOne(before, p, size);
      assert before + [p] == packets;
    }
  }

  /** Assembling any first part of the fragments completes a first part of the packets. */
  lemma {:induction false} AssemblePrefix(packets: seq<Packet>, size: nat, n: nat)
    requires size > 0 && n <= |FragmentizeAll(packets, size)|
    ensures Assemble(NOTHING, FragmentizeAll(packets, size)[..n]).done <= packets
  {
    var fs := FragmentizeAll(packets, size);
    assert fs == fs[..n] + fs[n..];
    AssembleConcat(NOTHING, fs[..n], fs[n..]);
    AssembleGrows(Assemble(NOTHING, fs[..n]), fs[n..]);
    AssembleFragmentizeAll(packets, size);
  }
}
