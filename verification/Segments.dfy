/** Sealed segments: the two-pass writer and the readers over the mapped bytes. */
module Segments {
  import opened Options
  import opened Bytes

  datatype Node = Node(id: u64, level: word, neighbors: seq<seq<word>>, vector: seq<word>)

  const HEADER_SIZE: nat := 64
  const MAGIC: seq<byte> := [0x56, 0x49, 0x56, 0x59, 0x53, 0x45, 0x47, 0]
  const VERSION: nat := 1

  function Zeros(n: nat): (z: seq<byte>)
    ensures |z| == n
  {
    seq(n, _ => 0)
  }

  // ---- cutting concatenations apart ----

  lemma Cut(a: seq<byte>, b: seq<byte>, c: seq<byte>)
    ensures (a + b + c)[|a|..|a| + |b|] == b
    ensures (a + b + c)[|a| + |b|..] == c
    ensures (a + (b + c))[|a|..|a| + |b|] == b
    ensures (a + (b + c))[|a| + |b|..] == c
    ensures a + b + c == a + (b + c)
  {
  }

  lemma FourFields(a: seq<byte>, b: seq<byte>, c: seq<byte>, d: seq<byte>, rest: seq<byte>)
    requires |a| == 8 && |b| == 4 && |c| == 4 && |d| == 4
    ensures var h := a + b + c + d + rest;
            h[..8] == a && h[8..12] == b && h[12..16] == c && h[16..20] == d
  {
  }

  /** Magic, version, node count cut to 32 bits, dims, M, M_max, no quantisation, padding. */
  function Header(count: nat, dims: nat): (h: seq<byte>)
    ensures |h| == HEADER_SIZE
    ensures h[..8] == MAGIC && h[8..12] == LE(VERSION, 4) && h[12..16] == LE(count, 4) && h[16..20] == LE(dims, 4)
  {
    hide LE;
    var rest := LE(16, 4) + LE(32, 4) + LE(0, 4) + Zeros(32);
    FourFields(MAGIC, LE(VERSION, 4), LE(count, 4), LE(dims, 4), rest);
    MAGIC + LE(VERSION, 4) + LE(count, 4) + LE(dims, 4) + rest
  }

  function EncodeLayers(ls: seq<seq<word>>): (b: seq<byte>)
    ensures |b| % 4 == 0
  {
    if ls == [] then []
    else
      Quadruple(1 + |ls[0]|);
      SumAligned(4 * (1 + |ls[0]|), |EncodeLayers(ls[1..])|);
      LE(|ls[0]|, 4) + EncodeWords(ls[0]) + EncodeLayers(ls[1..])
  }

  function EncodeNode(n: Node): (b: seq<byte>)
    ensures |b| % 4 == 0 && |b| >= 12
    ensures b[..8] == LE(n.id, 8) && b[8..12] == LE(n.level, 4)
    ensures b[12..] == EncodeLayers(n.neighbors) + EncodeWords(n.vector)
  {
    LE(n.id, 8) + LE(n.level, 4) + (EncodeLayers(n.neighbors) + EncodeWords(n.vector))
  }

  function Body(nodes: seq<Node>): seq<byte> {
    if nodes == [] then [] else Body(nodes[..|nodes| - 1]) + EncodeNode(nodes[|nodes| - 1])
  }

  lemma Quadruple(n: nat)
    ensures 4 * n % 4 == 0
  {
  }

  lemma SumAligned(a: nat, b: nat)
    requires a % 4 == 0 && b % 4 == 0
    ensures (a + b) % 4 == 0
  {
  }

  /** Every node starts at a multiple of four. */
  lemma {:induction false} BodyAligned(nodes: seq<Node>)
    ensures |Body(nodes)| % 4 == 0
  {
    if nodes == [] {
    } else {
      hide EncodeNode;
      var init, last := nodes[..|nodes| - 1], EncodeNode(nodes[|nodes| - 1]);
      BodyAligned(init);
      assert Body(nodes) == Body(init) + last;
      hide Body;
      SumAligned(|Body(init)|, |last|);
    }
  }

  /** Where node i starts inside the body. */
  function Offset(nodes: seq<Node>, i: nat): nat
    requires i <= |nodes|
  {
    |Body(nodes[..i])|
  }

  /** The offset table of the first n nodes. */
  function Table(nodes: seq<Node>, n: nat): (t: seq<byte>)
    requires n <= |nodes|
    ensures |t| == 8 * n
  {
    if n == 0 then [] else Table(nodes, n - 1) + LE(Offset(nodes, n - 1), 8)
  }

  function SegmentBytes(dims: nat, nodes: seq<Node>): seq<byte> {
    Header(|nodes|, dims) + Table(nodes, |nodes|) + Body(nodes)
  }

  /** The file after the first pass, when the table still holds zeros. */
  function FirstPassBytes(dims: nat, nodes: seq<Node>): seq<byte> {
    Header(|nodes|, dims) + Zeros(8 * |nodes|) + Body(nodes)
  }

  /** The file during the second pass, when the first n entries of the table are patched. */
  function PatchedBytes(dims: nat, nodes: seq<Node>, n: nat): seq<byte>
    requires n <= |nodes|
  {
    Header(|nodes|, dims) + (Table(nodes, n) + Zeros(8 * (|nodes| - n))) + Body(nodes)
  }

  lemma PatchedEnds(dims: nat, nodes: seq<Node>)
    ensures PatchedBytes(dims, nodes, 0) == FirstPassBytes(dims, nodes)
    ensures PatchedBytes(dims, nodes, |nodes|) == SegmentBytes(dims, nodes)
  {
    hide Header, Body;
    assert Table(nodes, 0) + Zeros(8 * |nodes|) == Zeros(8 * |nodes|);
    assert Table(nodes, |nodes|) + Zeros(0) == Table(nodes, |nodes|);
  }

  // ---- readers ----

  datatype SegmentError = Truncated | BadMagic | UnsupportedVersion

  /** A reader returns a value, reports an error, or panics on a slice or cast. */
  datatype Read<+T> = Got(value: T) | Failed(error: SegmentError) | Panics

  datatype Segment = Segment(bytes: seq<byte>, numNodes: nat, dims: nat)
  {
    function DataOff(): nat { HEADER_SIZE + 8 * numNodes }

    ghost predicate Valid() { DataOff() <= |bytes| }
  }

  /** `from_mmap`. */
  function Open(b: seq<byte>): (r: Read<Segment>)
    ensures r.Got? ==> r.value.Valid() && r.value.bytes == b
  {
    if |b| < HEADER_SIZE then Failed(Truncated)
    else if b[..8] != MAGIC then Failed(BadMagic)
    else if FromLE(b[8..12]) != VERSION then Failed(UnsupportedVersion)
    else
      var s := Segment(b, FromLE(b[12..16]), FromLE(b[16..20]));
      if |b| < s.DataOff() + (if s.numNodes > 0 then 12 else 0) then Failed(Truncated) else Got(s)
  }

  /** `offset_of`. */
  function OffsetOf(s: Segment, idx: nat): Read<nat>
    requires s.Valid()
  {
    if idx >= s.numNodes then Failed(Truncated)
    else
      var off := HEADER_SIZE + 8 * idx;
      Got(s.DataOff() + FromLE(s.bytes[off..off + 8]))
  }

  /** `id_at`. */
  function IdAt(s: Segment, idx: nat): Read<u64>
    requires s.Valid()
  {
    match OffsetOf(s, idx)
    case Got(start) =>
      if start + 8 > |s.bytes| then Failed(Truncated)
      else
        FromLEBound(s.bytes[start..start + 8]);
        Widths();
        Got(FromLE(s.bytes[start..start + 8]))
    case Failed(e) => Failed(e)
    case Panics => Panics
  }

  /** `count` neighbour lists at the front of the bytes, and what follows them. */
  function ReadLayers(b: seq<byte>, count: nat): Option<(seq<seq<word>>, seq<byte>)>
    decreases count
  {
    if count == 0 then Some(([], b))
    else if |b| < 4 then None
    else
      var n := FromLE(b[..4]);
      if |b| < 4 + 4 * n then None
      else
        match ReadLayers(b[4 + 4 * n..], count - 1)
        case None => None
        case Some((ls, rest)) => Some(([DecodeWords(b[4..4 + 4 * n])] + ls, rest))
  }

  /** `vector_at`: skip the lists with bounds checks, then reinterpret the bytes, which must be aligned. */
  function VectorAt(s: Segment, idx: nat): Read<seq<word>>
    requires s.Valid()
  {
    match OffsetOf(s, idx)
    case Failed(e) => Failed(e)
    case Panics => Panics
    case Got(start) =>
      if start > |s.bytes| then Panics
      else
        var b := s.bytes[start..];
        if |b| < 12 then Failed(Truncated)
        else
          match ReadLayers(b[12..], FromLE(b[8..12]) + 1)
          case None => Failed(Truncated)
          case Some((_, rest)) =>
            if |rest| < 4 * s.dims then Failed(Truncated)
            else if (|s.bytes| - |rest|) % 4 != 0 then Panics
            else Got(DecodeWords(rest[..4 * s.dims]))
  }

  /** `read_node`: the same walk without bounds checks of its own. */
  function ReadNode(s: Segment, idx: nat): Read<Node>
    requires s.Valid()
  {
    match OffsetOf(s, idx)
    case Failed(e) => Failed(e)
    case Panics => Panics
    case Got(start) =>
      if start > |s.bytes| || |s.bytes[start..]| < 12 then Panics
      else
        var b := s.bytes[start..];
        FromLEBound(b[..8]);
        FromLEBound(b[8..12]);
        Widths();
        match ReadLayers(b[12..], FromLE(b[8..12]) + 1)
        case None => Panics
        case Some((ls, rest)) =>
          if |rest| < 4 * s.dims || (|s.bytes| - |rest|) % 4 != 0 then Panics
          else Got(Node(FromLE(b[..8]), FromLE(b[8..12]), ls, DecodeWords(rest[..4 * s.dims])))
  }

  // ---- round trip ----

  /** A node with exactly level + 1 layers and counts fitting their fields. */
  ghost predicate WellFormed(dims: nat, n: Node) {
    && |n.neighbors| == n.level + 1
    && (forall l :: l in n.neighbors ==> |l| < 0x1_0000_0000)
    && |n.vector| == dims
  }

  ghost predicate Storable(dims: nat, nodes: seq<Node>) {
    && dims < 0x1_0000_0000 && |nodes| < 0x1_0000_0000
    && |Body(nodes)| < 0x1_0000_0000_0000_0000
    && forall n :: n in nodes ==> WellFormed(dims, n)
  }

  /** One neighbour list at the front of the bytes. */
  lemma ReadOneLayer(count: seq<byte>, data: seq<byte>, tail: seq<byte>, k: nat)
    requires |count| == 4 && |data| == 4 * FromLE(count)
    ensures ReadLayers(count + data + tail, k + 1) ==
            match ReadLayers(tail, k) {
              case None => None
              case Some((ls, rest)) => Some(([DecodeWords(data)] + ls, rest))
            }
  {
    hide FromLE, DecodeWords;
    Cut(count, data, tail);
    assert (count + data + tail)[..4] == count;
  }

  lemma LayersUnfold(ls: seq<seq<word>>, rest: seq<byte>)
    requires ls != []
    ensures EncodeLayers(ls) + rest == LE(|ls[0]|, 4) + EncodeWords(ls[0]) + (EncodeLayers(ls[1..]) + rest)
  {
    hide LE, EncodeWords;
    Cut(LE(|ls[0]|, 4) + EncodeWords(ls[0]), EncodeLayers(ls[1..]), rest);
  }

  lemma {:induction false} LayersReadBack(ls: seq<seq<word>>, rest: seq<byte>)
    requires forall l :: l in ls ==> |l| < 0x1_0000_0000
    ensures ReadLayers(EncodeLayers(ls) + rest, |ls|) == Some((ls, rest))
  {
    if ls == [] {
      assert EncodeLayers(ls) + rest == rest;
    } else {
      hide LE, FromLE, EncodeWords, DecodeWords, EncodeLayers, ReadLayers;
      var tail := EncodeLayers(ls[1..]) + rest;
      LayersReadBack(ls[1..], rest);
      LayersUnfold(ls, rest);
      Widths();
      ReadsBack(|ls[0]|, 4);
      WordsReadBack(ls[0]);
      ReadOneLayer(LE(|ls[0]|, 4), EncodeWords(ls[0]), tail, |ls[1..]|);
      assert [ls[0]] + ls[1..] == ls;
    }
  }

  /** What every reader returns at an index whose table entry points to an encoded node. */
  lemma ReadsNodeAt(s: Segment, idx: nat, start: nat, n: Node, rest: seq<byte>)
    requires s.Valid() && OffsetOf(s, idx) == Got(start) && start <= |s.bytes|
    requires s.bytes[start..] == EncodeNode(n) + rest
    requires WellFormed(s.dims, n) && start % 4 == 0
    ensures IdAt(s, idx) == Got(n.id)
    ensures VectorAt(s, idx) == Got(n.vector)
    ensures ReadNode(s, idx) == Got(n)
  {
    hide EncodeNode, EncodeWords, LE, FromLE, OffsetOf, ReadLayers, DecodeWords;
    var b := s.bytes[start..];
    var tail := EncodeWords(n.vector) + rest;
    NodeReadsBack(n, rest);
    assert s.bytes[start..start + 8] == b[..8];
    assert tail[..4 * s.dims] == EncodeWords(n.vector);
    WordsReadBack(n.vector);
    hide EncodeLayers;
    SumAligned(start, 12 + |EncodeLayers(n.neighbors)|);
    assert |s.bytes| - |tail| == start + (12 + |EncodeLayers(n.neighbors)|);
  }

  /** The fields at the front of an encoded node. */
  lemma NodeReadsBack(n: Node, rest: seq<byte>)
    requires WellFormed(|n.vector|, n)
    ensures var b := EncodeNode(n) + rest;
            && |b| >= 12 && FromLE(b[..8]) == n.id && FromLE(b[8..12]) == n.level
            && ReadLayers(b[12..], n.level + 1) == Some((n.neighbors, EncodeWords(n.vector) + rest))
            && |b| == 12 + |EncodeLayers(n.neighbors)| + |EncodeWords(n.vector) + rest|
  {
    hide EncodeNode, EncodeLayers, EncodeWords, LE, FromLE, ReadLayers;
    var b := EncodeNode(n) + rest;
    Widths();
    ReadsBack(n.id, 8);
    ReadsBack(n.level, 4);
    assert b[..8] == LE(n.id, 8) && b[8..12] == LE(n.level, 4);
    assert b[12..] == EncodeLayers(n.neighbors) + (EncodeWords(n.vector) + rest);
    LayersReadBack(n.neighbors, EncodeWords(n.vector) + rest);
  }

  lemma Reassociate(a: seq<byte>, b: seq<byte>, c: seq<byte>, d: seq<byte>)
    ensures (a + (b + c)) + d == a + (b + (c + d))
  {
  }

  lemma {:induction false} BodySplit(nodes: seq<Node>, i: nat) returns (rest: seq<byte>)
    requires i < |nodes|
    ensures Body(nodes) == Body(nodes[..i]) + (EncodeNode(nodes[i]) + rest)
  {
    hide EncodeNode;
    var n := |nodes| - 1;
    assert Body(nodes) == Body(nodes[..n]) + EncodeNode(nodes[n]);
    hide Body;
    if i == n {
      rest := [];
      assert EncodeNode(nodes[n]) + rest == EncodeNode(nodes[n]);
    } else {
      var init := nodes[..n];
      var more := BodySplit(init, i);
      assert init[..i] == nodes[..i];
      var last := EncodeNode(nodes[n]);
      rest := more + last;
      Reassociate(Body(nodes[..i]), EncodeNode(nodes[i]), more, last);
    }
  }

  lemma {:induction false} TableEntry(nodes: seq<Node>, n: nat, i: nat)
    requires i < n <= |nodes|
    ensures Table(nodes, n)[8 * i..8 * i + 8] == LE(Offset(nodes, i), 8)
  {
    hide Offset, LE;
    if i < n - 1 {
      TableEntry(nodes, n - 1, i);
    }
  }

  lemma BodyMonotone(nodes: seq<Node>, i: nat)
    requires i < |nodes|
    ensures Offset(nodes, i) + 12 <= |Body(nodes)|
  {
    hide EncodeNode;
    var rest := BodySplit(nodes, i);
  }

  lemma HeaderReadsBack(count: nat, dims: nat, rest: seq<byte>)
    requires count < 0x1_0000_0000 && dims < 0x1_0000_0000
    ensures var b := Header(count, dims) + rest;
            b[..8] == MAGIC && FromLE(b[8..12]) == VERSION && FromLE(b[12..16]) == count && FromLE(b[16..20]) == dims
  {
    hide Header, LE, FromLE;
    var h := Header(count, dims);
    var b := h + rest;
    assert b[..8] == h[..8] && b[8..12] == h[8..12] && b[12..16] == h[12..16] && b[16..20] == h[16..20];
    Widths();
    ReadsBack(VERSION, 4);
    ReadsBack(count, 4);
    ReadsBack(dims, 4);
  }

  /** The header of a written file is understood, whatever its table holds. */
  lemma OpensWith(dims: nat, nodes: seq<Node>, table: seq<byte>)
    requires Storable(dims, nodes) && |table| == 8 * |nodes|
    ensures var b := Header(|nodes|, dims) + table + Body(nodes);
            Open(b) == Got(Segment(b, |nodes|, dims))
  {
    hide Header, LE, FromLE, Body;
    HeaderReadsBack(|nodes|, dims, table + Body(nodes));
    assert Header(|nodes|, dims) + (table + Body(nodes)) == Header(|nodes|, dims) + table + Body(nodes);
    if nodes != [] { BodyMonotone(nodes, 0); }
  }

  /** A slice of the table is the same slice of the file; behind the table lies the body. */
  lemma Regions(h: seq<byte>, table: seq<byte>, body: seq<byte>, i: nat, o: nat)
    requires 8 * i + 8 <= |table| && o <= |body|
    ensures (h + table + body)[|h| + 8 * i..|h| + 8 * i + 8] == table[8 * i..8 * i + 8]
    ensures (h + table + body)[|h| + |table| + o..] == body[o..]
  {
  }

  lemma DropFront(a: seq<byte>, b: seq<byte>)
    ensures (a + b)[|a|..] == b
  {
  }

  lemma OffsetThroughTable(h: seq<byte>, table: seq<byte>, body: seq<byte>, n: nat, dims: nat, i: nat, o: nat)
    requires |h| == HEADER_SIZE && |table| == 8 * n && i < n
    requires o <= |body| && |body| < 0x1_0000_0000_0000_0000 && table[8 * i..8 * i + 8] == LE(o, 8)
    ensures var s := Segment(h + table + body, n, dims);
            s.Valid() && OffsetOf(s, i) == Got(s.DataOff() + o) && s.DataOff() + o <= |s.bytes| &&
            s.bytes[s.DataOff() + o..] == body[o..]
  {
    hide LE, FromLE;
    Regions(h, table, body, i, o);
    Widths();
    ReadsBack(o, 8);
  }

  lemma DataAligned(count: nat, o: nat)
    requires o % 4 == 0
    ensures (HEADER_SIZE + 8 * count + o) % 4 == 0
  {
    assert HEADER_SIZE + 8 * count == 4 * (16 + 2 * count);
  }

  lemma ReadsAtOffset(h: seq<byte>, table: seq<byte>, body: seq<byte>, count: nat, dims: nat, i: nat, o: nat,
                      n: Node, rest: seq<byte>)
    requires |h| == HEADER_SIZE && |table| == 8 * count && i < count
    requires o <= |body| && |body| < 0x1_0000_0000_0000_0000 && table[8 * i..8 * i + 8] == LE(o, 8)
    requires body[o..] == EncodeNode(n) + rest && o % 4 == 0 && WellFormed(dims, n)
    ensures var s := Segment(h + table + body, count, dims);
            s.Valid() && IdAt(s, i) == Got(n.id) && VectorAt(s, i) == Got(n.vector) && ReadNode(s, i) == Got(n)
  {
    hide LE, EncodeNode, IdAt, VectorAt, ReadNode, WellFormed, OffsetOf;
    var s := Segment(h + table + body, count, dims);
    DataAligned(count, o);
    OffsetThroughTable(h, table, body, count, dims, i, o);
    hide Segment.DataOff;
    ReadsNodeAt(s, i, s.DataOff() + o, n, rest);
  }

  lemma NodeInBody(nodes: seq<Node>, j: nat) returns (rest: seq<byte>)
    requires j < |nodes|
    ensures Offset(nodes, j) <= |Body(nodes)| && Offset(nodes, j) % 4 == 0
    ensures Body(nodes)[Offset(nodes, j)..] == EncodeNode(nodes[j]) + rest
  {
    hide Body, EncodeNode;
    rest := BodySplit(nodes, j);
    BodyAligned(nodes[..j]);
    DropFront(Body(nodes[..j]), EncodeNode(nodes[j]) + rest);
  }

  /** The index i of a file whose table holds, for i, the offset of node j. */
  lemma ReadsThroughTable(dims: nat, nodes: seq<Node>, table: seq<byte>, i: nat, j: nat)
    requires Storable(dims, nodes) && |table| == 8 * |nodes| && i < |nodes| && j < |nodes|
    requires table[8 * i..8 * i + 8] == LE(Offset(nodes, j), 8)
    ensures var s := Segment(Header(|nodes|, dims) + table + Body(nodes), |nodes|, dims);
            s.Valid() && IdAt(s, i) == Got(nodes[j].id) && VectorAt(s, i) == Got(nodes[j].vector) &&
            ReadNode(s, i) == Got(nodes[j])
  {
    hide Header, LE, EncodeNode, IdAt, VectorAt, ReadNode, Body, WellFormed, Offset;
    var rest := NodeInBody(nodes, j);
    ReadsAtOffset(Header(|nodes|, dims), table, Body(nodes), |nodes|, dims, i, Offset(nodes, j), nodes[j], rest);
  }

  /** The round trip: every reader gives back exactly what was pushed. */
  lemma SegmentReadsBack(dims: nat, nodes: seq<Node>, i: nat)
    requires Storable(dims, nodes) && i < |nodes|
    ensures Open(SegmentBytes(dims, nodes)) == Got(Segment(SegmentBytes(dims, nodes), |nodes|, dims))
    ensures var s := Segment(SegmentBytes(dims, nodes), |nodes|, dims);
            s.Valid() && IdAt(s, i) == Got(nodes[i].id) && VectorAt(s, i) == Got(nodes[i].vector) &&
            ReadNode(s, i) == Got(nodes[i])
  {
    hide Header, IdAt, VectorAt, ReadNode, Table, Body;
    OpensWith(dims, nodes, Table(nodes, |nodes|));
    TableEntry(nodes, |nodes|, i);
    ReadsThroughTable(dims, nodes, Table(nodes, |nodes|), i, i);
  }

  lemma ZerosAreZero(i: nat, n: nat)
    requires i < n
    ensures Zeros(8 * n)[8 * i..8 * i + 8] == LE(0, 8)
  {
    assert LE(0, 8) == [0] + LE(0, 7);
    assert LE(0, 7) == [0] + LE(0, 6);
    assert LE(0, 5) == [0] + LE(0, 4);
    assert LE(0, 3) == [0] + LE(0, 2);
    assert LE(0, 1) == [0] + LE(0, 0);
  }

  /** A file abandoned between the two passes opens, but every index shows the first node. */
  lemma FirstPassReadsFirstNode(dims: nat, nodes: seq<Node>, i: nat)
    requires Storable(dims, nodes) && i < |nodes|
    ensures Open(FirstPassBytes(dims, nodes)) == Got(Segment(FirstPassBytes(dims, nodes), |nodes|, dims))
    ensures var s := Segment(FirstPassBytes(dims, nodes), |nodes|, dims);
            s.Valid() && IdAt(s, i) == Got(nodes[0].id) && VectorAt(s, i) == Got(nodes[0].vector)
  {
    hide Header, IdAt, VectorAt, ReadNode, Zeros;
    OpensWith(dims, nodes, Zeros(8 * |nodes|));
    ZerosAreZero(i, |nodes|);
    assert Offset(nodes, 0) == 0;
    ReadsThroughTable(dims, nodes, Zeros(8 * |nodes|), i, 0);
  }

  // ---- the loops ----

  /** The remainder behind `count` lists, if they are all there. */
  function Behind(b: seq<byte>, count: nat): Option<seq<byte>> {
    match ReadLayers(b, count)
    case None => None
    case Some((_, rest)) => Some(rest)
  }

  lemma BehindStep(b: seq<byte>, k: nat)
    ensures |b| < 4 ==> Behind(b, k + 1) == None
    ensures |b| >= 4 && |b| < 4 + 4 * FromLE(b[..4]) ==> Behind(b, k + 1) == None
    ensures |b| >= 4 && |b| >= 4 + 4 * FromLE(b[..4]) ==> Behind(b, k + 1) == Behind(b[4 + 4 * FromLE(b[..4])..], k)
    ensures Behind(b, 0) == Some(b)
  {
    hide FromLE, DecodeWords;
  }

  /** The cursor loop of `vector_at`. */
  method SkipLayers(b: seq<byte>, count: nat) returns (rest: Option<seq<byte>>)
    ensures rest == Behind(b, count)
  {
    hide Behind, FromLE;
    var pos := 0;
    assert b[0..] == b;
    for i := 0 to count
      invariant 0 <= pos <= |b|
      invariant Behind(b, count) == Behind(b[pos..], count - i)
    {
      BehindStep(b[pos..], count - i - 1);
      if pos + 4 > |b| {
        return None;
      }
      assert b[pos..][..4] == b[pos..pos + 4];
      var n := FromLE(b[pos..pos + 4]);
      if pos + 4 + 4 * n > |b| {
        return None;
      }
      assert b[pos..][4 + 4 * n..] == b[pos + 4 + 4 * n..];
      pos := pos + 4 + 4 * n;
    }
    BehindStep(b[pos..], 0);
    return Some(b[pos..]);
  }

  /** The lists read so far in front of what is still to come. */
  function After(read: seq<seq<word>>, rest: Option<(seq<seq<word>>, seq<byte>)>): Option<(seq<seq<word>>, seq<byte>)> {
    match rest
    case None => None
    case Some((ls, b)) => Some((read + ls, b))
  }

  lemma AfterStep(read: seq<seq<word>>, b: seq<byte>, k: nat)
    ensures |b| < 4 ==> After(read, ReadLayers(b, k + 1)) == None
    ensures |b| >= 4 && |b| < 4 + 4 * FromLE(b[..4]) ==> After(read, ReadLayers(b, k + 1)) == None
    ensures |b| >= 4 && |b| >= 4 + 4 * FromLE(b[..4]) ==>
              var n := FromLE(b[..4]);
              After(read, ReadLayers(b, k + 1)) ==
              After(read + [DecodeWords(b[4..4 + 4 * n])], ReadLayers(b[4 + 4 * n..], k))
  {
    hide FromLE, DecodeWords;
    if |b| >= 4 && |b| >= 4 + 4 * FromLE(b[..4]) {
      var n := FromLE(b[..4]);
      match ReadLayers(b[4 + 4 * n..], k) {
        case None =>
        case Some((ls, rest)) =>
          assert read + ([DecodeWords(b[4..4 + 4 * n])] + ls) == (read + [DecodeWords(b[4..4 + 4 * n])]) + ls;
      }
    }
  }

  lemma AfterNothing(b: seq<byte>, count: nat, read: seq<seq<word>>)
    ensures After([], ReadLayers(b[0..], count)) == ReadLayers(b, count)
    ensures After(read, ReadLayers(b, 0)) == Some((read, b))
  {
    assert b[0..] == b && read + [] == read;
    match ReadLayers(b, count) {
      case None =>
      case Some((ls, rest)) => assert [] + ls == ls;
    }
  }

  /** The loop of `read_node` over the neighbour lists. */
  method ReadLists(b: seq<byte>, count: nat) returns (r: Option<(seq<seq<word>>, seq<byte>)>)
    ensures r == ReadLayers(b, count)
  {
    hide ReadLayers, After, FromLE, DecodeWords;
    var pos, lists: seq<seq<word>> := 0, [];
    AfterNothing(b, count, []);
    for i := 0 to count
      invariant 0 <= pos <= |b|
      invariant ReadLayers(b, count) == After(lists, ReadLayers(b[pos..], count - i))
    {
      ghost var front := b[pos..];
      AfterStep(lists, front, count - i - 1);
      if pos + 4 > |b| {
        return None;
      }
      assert front[..4] == b[pos..pos + 4];
      var n := FromLE(b[pos..pos + 4]);
      if pos + 4 + 4 * n > |b| {
        return None;
      }
      assert front[4 + 4 * n..] == b[pos + 4 + 4 * n..] && front[4..4 + 4 * n] == b[pos + 4..pos + 4 + 4 * n];
      lists := lists + [DecodeWords(b[pos + 4..pos + 4 + 4 * n])];
      pos := pos + 4 + 4 * n;
    }
    AfterNothing(b[pos..], 0, lists);
    r := Some((lists, b[pos..]));
  }

  /** `vector_at`, with its cursor. */
  method VectorBytes(s: Segment, idx: nat) returns (r: Read<seq<word>>)
    requires s.Valid()
    ensures r == VectorAt(s, idx)
  {
    hide FromLE, DecodeWords, ReadLayers;
    if idx >= s.numNodes {
      return Failed(Truncated);
    }
    var start := OffsetOf(s, idx).value;
    if start > |s.bytes| {
      return Panics;
    }
    if start + 12 > |s.bytes| {
      return Failed(Truncated);
    }
    var b := s.bytes[start..];
    var rest := SkipLayers(b[12..], FromLE(b[8..12]) + 1);
    if rest.None? || |rest.value| < 4 * s.dims {
      return Failed(Truncated);
    }
    if (|s.bytes| - |rest.value|) % 4 != 0 {
      return Panics;
    }
    return Got(DecodeWords(rest.value[..4 * s.dims]));
  }

  /** `read_node`, with its cursor. */
  method NodeRecord(s: Segment, idx: nat) returns (r: Read<Node>)
    requires s.Valid()
    ensures r == ReadNode(s, idx)
  {
    hide FromLE, DecodeWords, ReadLayers;
    if idx >= s.numNodes {
      return Failed(Truncated);
    }
    var start := OffsetOf(s, idx).value;
    if start > |s.bytes| || start + 12 > |s.bytes| {
      return Panics;
    }
    var b := s.bytes[start..];
    FromLEBound(b[..8]);
    FromLEBound(b[8..12]);
    Widths();
    var read := ReadLists(b[12..], FromLE(b[8..12]) + 1);
    if read.None? {
      return Panics;
    }
    var (lists, rest) := read.value;
    if |rest| < 4 * s.dims || (|s.bytes| - |rest|) % 4 != 0 {
      return Panics;
    }
    return Got(Node(FromLE(b[..8]), FromLE(b[8..12]), lists, DecodeWords(rest[..4 * s.dims])));
  }

  lemma BodyOfNone(nodes: seq<Node>)
    ensures Body(nodes[..0]) == []
  {
  }

  lemma BodyStep(nodes: seq<Node>, i: nat)
    requires i < |nodes|
    ensures Body(nodes[..i + 1]) == Body(nodes[..i]) + EncodeNode(nodes[i]) && Offset(nodes, i) == |Body(nodes[..i])|
  {
    hide EncodeNode;
    assert nodes[..i + 1][..i] == nodes[..i];
  }

  /** Nodes collected for one segment file. */
  class SegmentWriter {
    const dims: nat
    var nodes: seq<Node>

    constructor (dims: nat)
      ensures this.dims == dims && nodes == []
    {
      this.dims, nodes := dims, [];
    }

    method Push(n: Node) returns (r: Result<()>)
      modifies this`nodes
      ensures r == if |n.vector| != dims then DimensionMismatch else Ok(())
      ensures nodes == if r.Ok? then old(nodes) + [n] else old(nodes)
    {
      if |n.vector| != dims {
        return DimensionMismatch;
      }
      nodes := nodes + [n];
      return Ok(());
    }

    /** The first pass: header, a table of zeros, the nodes; their offsets are collected on the way. */
    method FirstPass() returns (file: seq<byte>, offsets: seq<nat>)
      ensures file == FirstPassBytes(dims, nodes)
      ensures |offsets| == |nodes| && forall j :: 0 <= j < |nodes| ==> offsets[j] == Offset(nodes, j)
    {
      BodyOfNone(nodes);
      hide Header, Zeros, EncodeNode, Body, Offset;
      var n := |nodes|;
      file := Header(n, dims) + Zeros(8 * n);
      var dataStart := |file|;
      offsets := [];
      ghost var front := file;
      for i := 0 to n
        invariant file == front + Body(nodes[..i])
        invariant |offsets| == i && forall j :: 0 <= j < i ==> offsets[j] == Offset(nodes, j)
      {
        BodyStep(nodes, i);
        Cut(front, Body(nodes[..i]), EncodeNode(nodes[i]));
        offsets := offsets + [|file| - dataStart];
        file := file + EncodeNode(nodes[i]);
      }
      assert nodes[..n] == nodes;
    }

    /** `write`: two passes over the file, the second patching the table in place. */
    method Write() returns (file: seq<byte>, ghost firstPass: seq<byte>)
      ensures firstPass == FirstPassBytes(dims, nodes)
      ensures file == SegmentBytes(dims, nodes)
    {
      hide Header, Zeros, LE, Body, Offset;
      var n := |nodes|;
      var offsets;
      file, offsets := FirstPass();
      firstPass := file;
      var pos := HEADER_SIZE;
      assert Table(nodes, 0) + Zeros(8 * n) == Zeros(8 * n);
      for i := 0 to n
        invariant pos == HEADER_SIZE + 8 * i
        invariant file == Header(n, dims) + (Table(nodes, i) + Zeros(8 * (n - i))) + Body(nodes)
      {
        PatchStep(Header(n, dims), Table(nodes, i), n - i, Body(nodes), offsets[i]);
        file := file[..pos] + LE(offsets[i], 8) + file[pos + 8..];
        pos := pos + 8;
      }
      assert Table(nodes, n) + Zeros(0) == Table(nodes, n);
    }
  }

  /** Overwriting the first zero entry behind the patched part of the table. */
  lemma PatchStep(h: seq<byte>, done: seq<byte>, left: nat, body: seq<byte>, off: nat)
    requires left > 0
    ensures var file := h + (done + Zeros(8 * left)) + body;
            var pos := |h| + |done|;
            pos + 8 <= |file| &&
            file[..pos] + LE(off, 8) + file[pos + 8..] == h + ((done + LE(off, 8)) + Zeros(8 * (left - 1))) + body
  {
    hide LE;
    var file := h + (done + Zeros(8 * left)) + body;
    var pos := |h| + |done|;
    assert file[..pos] == h + done;
    assert file[pos + 8..] == Zeros(8 * left)[8..] + body;
    assert Zeros(8 * left)[8..] == Zeros(8 * (left - 1));
  }

  // ---- what a search can see of a file ----

  ghost function Seen(s: Segment): set<(u64, seq<word>)>
    requires s.Valid()
  {
    set i | 0 <= i < s.numNodes && IdAt(s, i).Got? && VectorAt(s, i).Got? :: (IdAt(s, i).value, VectorAt(s, i).value)
  }

  /** The pairs that the scan of a segment file yields; a file that does not open yields none. */
  ghost function VisiblePairs(b: seq<byte>): set<(u64, seq<word>)> {
    match Open(b)
    case Got(s) => Seen(s)
    case Failed(_) => {}
    case Panics => {}
  }

  lemma EmptyFileShowsNothing()
    ensures VisiblePairs([]) == {}
  {
  }

  ghost function PairsOf(nodes: seq<Node>): set<(u64, seq<word>)> {
    set i | 0 <= i < |nodes| :: (nodes[i].id, nodes[i].vector)
  }

  lemma SeenExactly(s: Segment, nodes: seq<Node>)
    requires s.Valid() && s.numNodes == |nodes|
    requires forall i :: 0 <= i < |nodes| ==> IdAt(s, i) == Got(nodes[i].id) && VectorAt(s, i) == Got(nodes[i].vector)
    ensures Seen(s) == PairsOf(nodes)
  {
    hide IdAt, VectorAt;
    forall p | p in PairsOf(nodes) ensures p in Seen(s) {
      var i :| 0 <= i < |nodes| && p == (nodes[i].id, nodes[i].vector);
      assert p == (IdAt(s, i).value, VectorAt(s, i).value);
    }
  }

  /** A completed segment file shows exactly the pairs written to it. */
  lemma WrittenFileShowsAll(dims: nat, nodes: seq<Node>)
    requires Storable(dims, nodes)
    ensures VisiblePairs(SegmentBytes(dims, nodes)) == PairsOf(nodes)
  {
    hide Open, IdAt, VectorAt, ReadNode, Storable, Header, Body, Seen;
    var s := Segment(SegmentBytes(dims, nodes), |nodes|, dims);
    OpensWith(dims, nodes, Table(nodes, |nodes|));
    forall i | 0 <= i < |nodes| ensures IdAt(s, i) == Got(nodes[i].id) && VectorAt(s, i) == Got(nodes[i].vector) {
      SegmentReadsBack(dims, nodes, i);
    }
    SeenExactly(s, nodes);
  }

  /** A file abandoned between the passes shows the first pair and nothing else. */
  lemma AbandonedFileShowsFirst(dims: nat, nodes: seq<Node>)
    requires Storable(dims, nodes) && nodes != []
    ensures VisiblePairs(FirstPassBytes(dims, nodes)) == {(nodes[0].id, nodes[0].vector)}
  {
    hide Open, IdAt, VectorAt, ReadNode, Storable, Header, Body, Seen, Zeros;
    var s := Segment(FirstPassBytes(dims, nodes), |nodes|, dims);
    var copies := seq(|nodes|, _ => nodes[0]);
    OpensWith(dims, nodes, Zeros(8 * |nodes|));
    forall i | 0 <= i < |nodes| ensures IdAt(s, i) == Got(nodes[0].id) && VectorAt(s, i) == Got(nodes[0].vector) {
      FirstPassReadsFirstNode(dims, nodes, i);
    }
    SeenExactly(s, copies);
    assert copies[0] == nodes[0];
  }

  // ---- files that a crash cut short ----

  /** Lists that are read are there. */
  lemma LayersFit(b: seq<byte>, k: nat)
    requires ReadLayers(b, k + 1).Some?
    ensures |b| >= 4 && |b| >= 4 + 4 * FromLE(b[..4])
    ensures ReadLayers(b[4 + 4 * FromLE(b[..4])..], k).Some?
  {
    hide FromLE, DecodeWords;
  }

  lemma ThreeParts(b: seq<byte>, p: nat)
    requires 4 <= p <= |b|
    ensures b == b[..4] + b[4..p] + b[p..]
  {
  }

  lemma PartsOfMore(b: seq<byte>, n: nat, p: nat)
    requires 4 <= p <= n <= |b|
    ensures b[..n][..4] == b[..4] && b[..n][4..p] == b[4..p]
    ensures b[..n][p..] == b[p..][..n - p] && b[p..][n - p..] == b[n..]
  {
  }

  lemma NoLists(b: seq<byte>)
    ensures ReadLayers(b, 0) == Some(([], b))
  {
  }

  /** Whatever is read from the front of some bytes is read from more of them. */
  lemma {:induction false} ReadLayersOfMore(b: seq<byte>, n: nat, k: nat)
    requires n <= |b| && ReadLayers(b[..n], k).Some?
    ensures var (ls, rest) := ReadLayers(b[..n], k).value; ReadLayers(b, k) == Some((ls, rest + b[n..]))
    decreases k
  {
    hide ReadLayers, FromLE, DecodeWords;
    if k == 0 {
      NoLists(b);
      NoLists(b[..n]);
      assert b == b[..n] + b[n..];
    } else {
      var a := b[..n];
      LayersFit(a, k - 1);
      var p := 4 + 4 * FromLE(a[..4]);
      PartsOfMore(b, n, p);
      ThreeParts(a, p);
      ThreeParts(b, p);
      ReadOneLayer(b[..4], b[4..p], a[p..], k - 1);
      ReadOneLayer(b[..4], b[4..p], b[p..], k - 1);
      ReadLayersOfMore(b[p..], n - p, k - 1);
    }
  }

  lemma IdOfMore(s: Segment, t: Segment, i: nat)
    requires s.Valid() && t.Valid() && s.bytes <= t.bytes && s.numNodes == t.numNodes && s.dims == t.dims
    requires IdAt(s, i).Got?
    ensures IdAt(t, i) == IdAt(s, i)
  {
    var off := HEADER_SIZE + 8 * i;
    assert s.bytes[off..off + 8] == t.bytes[off..off + 8];
    var start := OffsetOf(s, i).value;
    assert s.bytes[start..start + 8] == t.bytes[start..start + 8];
  }

  lemma VectorOfMore(s: Segment, t: Segment, i: nat)
    requires s.Valid() && t.Valid() && s.bytes <= t.bytes && s.numNodes == t.numNodes && s.dims == t.dims
    requires VectorAt(s, i).Got?
    ensures VectorAt(t, i) == VectorAt(s, i)
  {
    hide FromLE, DecodeWords, ReadLayers;
    var off, n := HEADER_SIZE + 8 * i, |s.bytes|;
    assert s.bytes[off..off + 8] == t.bytes[off..off + 8];
    var start := OffsetOf(s, i).value;
    var b, c := s.bytes[start..], t.bytes[start..];
    assert b[8..12] == c[8..12];
    var count := FromLE(b[8..12]) + 1;
    assert b[12..] == c[12..][..n - start - 12];
    ReadLayersOfMore(c[12..], n - start - 12, count);
    var (ls, rest) := ReadLayers(b[12..], count).value;
    var more := c[12..][n - start - 12..];
    assert |t.bytes| - |rest + more| == |s.bytes| - |rest|;
    assert (rest + more)[..4 * s.dims] == rest[..4 * s.dims];
  }

  /** A file cut anywhere shows nothing that the whole file does not show. */
  lemma PrefixShowsLess(b: seq<byte>, n: nat)
    requires n <= |b|
    ensures VisiblePairs(b[..n]) <= VisiblePairs(b)
  {
    hide IdAt, VectorAt, FromLE;
    if Open(b[..n]).Got? {
      assert b[..n][..8] == b[..8] && b[..n][8..12] == b[8..12];
      assert b[..n][12..16] == b[12..16] && b[..n][16..20] == b[16..20];
      var s, t := Open(b[..n]).value, Open(b).value;
      forall i | 0 <= i < s.numNodes && IdAt(s, i).Got? && VectorAt(s, i).Got?
        ensures IdAt(t, i) == IdAt(s, i) && VectorAt(t, i) == VectorAt(s, i)
      {
        IdOfMore(s, t, i);
        VectorOfMore(s, t, i);
      }
    }
  }

  /** What a partly patched file shows at each index: the nodes patched so far, and the first one again. */
  function Shown(nodes: seq<Node>, n: nat): (shown: seq<Node>)
    requires n <= |nodes|
    ensures |shown| == |nodes|
    ensures forall i :: 0 <= i < |nodes| ==> shown[i] == if i < n then nodes[i] else nodes[0]
  {
    seq(|nodes|, i requires 0 <= i < |nodes| => if i < n then nodes[i] else nodes[0])
  }

  lemma FirstOffset(nodes: seq<Node>)
    ensures Offset(nodes, 0) == 0
  {
  }

  lemma PatchedEntry(nodes: seq<Node>, n: nat, i: nat)
    requires n <= |nodes| && i < |nodes|
    ensures var table := Table(nodes, n) + Zeros(8 * (|nodes| - n));
            table[8 * i..8 * i + 8] == LE(Offset(nodes, if i < n then i else 0), 8)
  {
    hide LE, Zeros, Table, Body;
    var t, z := Table(nodes, n), Zeros(8 * (|nodes| - n));
    if i < n {
      TableEntry(nodes, n, i);
      assert (t + z)[8 * i..8 * i + 8] == t[8 * i..8 * i + 8];
    } else {
      ZerosAreZero(i - n, |nodes| - n);
      assert (t + z)[8 * i..8 * i + 8] == z[8 * (i - n)..8 * (i - n) + 8];
      FirstOffset(nodes);
    }
  }

  /** A file abandoned while its table is patched opens and shows only pairs written to it. */
  lemma PatchedFileShows(dims: nat, nodes: seq<Node>, n: nat)
    requires Storable(dims, nodes) && n <= |nodes|
    ensures VisiblePairs(PatchedBytes(dims, nodes, n)) == PairsOf(Shown(nodes, n)) <= PairsOf(nodes)
  {
    hide Open, IdAt, VectorAt, ReadNode, Storable, Header, Body, Seen, Table, Zeros, PairsOf;
    var table := Table(nodes, n) + Zeros(8 * (|nodes| - n));
    var s := Segment(PatchedBytes(dims, nodes, n), |nodes|, dims);
    OpensWith(dims, nodes, table);
    forall i | 0 <= i < |nodes|
      ensures IdAt(s, i) == Got(Shown(nodes, n)[i].id) && VectorAt(s, i) == Got(Shown(nodes, n)[i].vector)
    {
      PatchedEntry(nodes, n, i);
      ReadsThroughTable(dims, nodes, table, i, if i < n then i else 0);
    }
    SeenExactly(s, Shown(nodes, n));
    ShownGrows(nodes, n, |nodes|);
    assert Shown(nodes, |nodes|) == nodes;
  }

  lemma ShownGrows(nodes: seq<Node>, n: nat, m: nat)
    requires n <= m <= |nodes|
    ensures PairsOf(Shown(nodes, n)) <= PairsOf(Shown(nodes, m))
  {
    var a, b := Shown(nodes, n), Shown(nodes, m);
    forall i | 0 <= i < |a| ensures (a[i].id, a[i].vector) in PairsOf(b) {
      assert a[i] == b[if i < n then i else 0];
    }
  }
}
