/** The write-ahead log: the byte format of its entries, the replay loop, and the writer. */
module Wal {
  import opened Bytes

  datatype WalEntry = WalEntry(id: u64, vector: seq<word>)

  const INSERT_TAG: byte := 1

  /** How a replay ended. */
  datatype Outcome = Clean | Torn | UnknownTag(offset: nat)

  datatype Replayed = Replayed(entries: seq<WalEntry>, outcome: Outcome)

  /** Tag, id, dimension cut to 32 bits, vector. */
  function Encode(e: WalEntry): (b: seq<byte>)
    ensures |b| == 13 + 4 * |e.vector|
    ensures b[0] == INSERT_TAG && b[1..9] == LE(e.id, 8) && b[9..13] == LE(|e.vector|, 4)
    ensures b[13..] == EncodeWords(e.vector)
  {
    [INSERT_TAG] + LE(e.id, 8) + LE(|e.vector|, 4) + EncodeWords(e.vector)
  }

  function Log(es: seq<WalEntry>): seq<byte> {
    if es == [] then [] else Encode(es[0]) + Log(es[1..])
  }

  function DimAt(b: seq<byte>): nat
    requires |b| >= 13
  {
    FromLE(b[9..13])
  }

  function EntryAt(b: seq<byte>): WalEntry
    requires |b| >= 13 && |b| >= 13 + 4 * DimAt(b)
  {
    FromLEBound(b[1..9]);
    Widths();
    WalEntry(FromLE(b[1..9]), DecodeWords(b[13..13 + 4 * DimAt(b)]))
  }

  /** What a replay of the bytes `b` delivers, `off` being the offset of b in the file. */
  function Replay(b: seq<byte>, off: nat): Replayed
    decreases |b|
  {
    if b == [] then Replayed([], Clean)
    else if b[0] != INSERT_TAG then Replayed([], UnknownTag(off))
    else if |b| < 13 || |b| < 13 + 4 * DimAt(b) then Replayed([], Torn)
    else
      var n := 13 + 4 * DimAt(b);
      var rest := Replay(b[n..], off + n);
      Replayed([EntryAt(b)] + rest.entries, rest.outcome)
  }

  function Prepend(es: seq<WalEntry>, r: Replayed): Replayed {
    Replayed(es + r.entries, r.outcome)
  }

  lemma PrependNothing(es: seq<WalEntry>, outcome: Outcome)
    ensures Prepend(es, Replayed([], outcome)) == Replayed(es, outcome)
    ensures Prepend([], Replayed(es, outcome)) == Replayed(es, outcome)
  {
  }

  lemma PrependTwice(es: seq<WalEntry>, fs: seq<WalEntry>, r: Replayed)
    ensures Prepend(es, Prepend(fs, r)) == Prepend(es + fs, r)
  {
    assert es + (fs + r.entries) == (es + fs) + r.entries;
  }

  /** One turn of the replay loop. */
  lemma ReplayUnfolds(b: seq<byte>, off: nat)
    requires b != []
    ensures b[0] != INSERT_TAG ==> Replay(b, off) == Replayed([], UnknownTag(off))
    ensures b[0] == INSERT_TAG && (|b| < 13 || |b| < 13 + 4 * DimAt(b)) ==> Replay(b, off) == Replayed([], Torn)
    ensures b[0] == INSERT_TAG && |b| >= 13 && |b| >= 13 + 4 * DimAt(b) ==>
              Replay(b, off) == Prepend([EntryAt(b)], Replay(b[13 + 4 * DimAt(b)..], off + 13 + 4 * DimAt(b)))
  {
  }

  lemma ReplayOfNothing(off: nat)
    ensures Replay([], off) == Replayed([], Clean)
  {
  }

  /** `WalWriter::replay` over the bytes of the log file. */
  method ReplayFile(file: seq<byte>) returns (r: Replayed)
    ensures r == Replay(file, 0)
  {
    hide Replay, Prepend, EntryAt, DimAt;
    var off := 0;
    var entries: seq<WalEntry> := [];
    assert file[0..] == file;
    PrependNothing(Replay(file, 0).entries, Replay(file, 0).outcome);
    while off < |file|
      invariant 0 <= off <= |file|
      invariant Replay(file, 0) == Prepend(entries, Replay(file[off..], off))
    {
      var b := file[off..];
      ReplayUnfolds(b, off);
      if b[0] != INSERT_TAG {
        PrependNothing(entries, UnknownTag(off));
        return Replayed(entries, UnknownTag(off));
      }
      if |b| < 13 || |b| < 13 + 4 * DimAt(b) {
        PrependNothing(entries, Torn);
        return Replayed(entries, Torn);
      }
      var n := 13 + 4 * DimAt(b);
      assert b[n..] == file[off + n..];
      PrependTwice(entries, [EntryAt(b)], Replay(b[n..], off + n));
      entries := entries + [EntryAt(b)];
      off := off + n;
    }
    assert file[off..] == [];
    ReplayOfNothing(off);
    PrependNothing(entries, Clean);
    return Replayed(entries, Clean);
  }

  /** The dimension fits its 32-bit field. */
  predicate Fits(e: WalEntry) {
    |e.vector| < 0x1_0000_0000
  }

  /** An entry at the front of the bytes is read back whole. */
  lemma EntryReadsBack(e: WalEntry, rest: seq<byte>, off: nat)
    requires Fits(e)
    ensures Replay(Encode(e) + rest, off) == Prepend([e], Replay(rest, off + |Encode(e)|))
  {
    hide Encode, Replay, DimAt, EntryAt, LE, EncodeWords;
    FrontReadsBack(e, rest);
    ReplayUnfolds(Encode(e) + rest, off);
  }

  lemma FrontReadsBack(e: WalEntry, rest: seq<byte>)
    requires Fits(e)
    ensures var b := Encode(e) + rest;
            DimAt(b) == |e.vector| && EntryAt(b) == e && b[13 + 4 * |e.vector|..] == rest
  {
    hide Encode, LE, FromLE, EncodeWords, DecodeWords;
    var b := Encode(e) + rest;
    Widths();
    ReadsBack(|e.vector|, 4);
    ReadsBack(e.id, 8);
    assert b[9..13] == LE(|e.vector|, 4) && b[1..9] == LE(e.id, 8);
    assert b[13..13 + 4 * |e.vector|] == EncodeWords(e.vector);
    WordsReadBack(e.vector);
  }

  /** A proper part of one entry is torn, or empty. */
  lemma PartialEntry(e: WalEntry, n: nat, off: nat)
    requires Fits(e) && n < |Encode(e)|
    ensures Replay(Encode(e)[..n], off) == Replayed([], if n == 0 then Clean else Torn)
  {
    var b := Encode(e)[..n];
    if n >= 13 {
      Widths();
      ReadsBack(|e.vector|, 4);
      assert b[9..13] == LE(|e.vector|, 4);
    }
  }

  /** The offset of the boundary after the first i entries. */
  function Boundary(es: seq<WalEntry>, i: nat): nat
    requires i <= |es|
  {
    |Log(es[..i])|
  }

  lemma LogUnfolds(es: seq<WalEntry>)
    ensures es == [] ==> Log(es) == []
    ensures es != [] ==> Log(es) == Encode(es[0]) + Log(es[1..])
  {
  }

  lemma {:induction false} LogAppend(es: seq<WalEntry>, fs: seq<WalEntry>)
    ensures Log(es + fs) == Log(es) + Log(fs)
  {
    if es == [] {
      assert es + fs == fs;
    } else {
      assert (es + fs)[1..] == es[1..] + fs;
      LogAppend(es[1..], fs);
    }
  }

  ghost predicate AllFit(es: seq<WalEntry>) {
    forall e :: e in es ==> Fits(e)
  }

  lemma Associate(a: seq<byte>, b: seq<byte>, c: seq<byte>)
    ensures (a + b) + c == a + (b + c)
  {
  }

  /** Bytes behind a log are replayed after its entries. */
  lemma {:induction false} ReplayThrough(es: seq<WalEntry>, rest: seq<byte>, off: nat)
    requires AllFit(es)
    ensures Replay(Log(es) + rest, off) == Prepend(es, Replay(rest, off + |Log(es)|))
  {
    hide Replay, Encode, Prepend, Log, Fits;
    LogUnfolds(es);
    if es == [] {
      assert [] + rest == rest;
      PrependNothing(Replay(rest, off).entries, Replay(rest, off).outcome);
    } else {
      var tail := Log(es[1..]) + rest;
      Associate(Encode(es[0]), Log(es[1..]), rest);
      EntryReadsBack(es[0], tail, off);
      ReplayThrough(es[1..], rest, off + |Encode(es[0])|);
      PrependTwice([es[0]], es[1..], Replay(rest, off + |Log(es)|));
      assert [es[0]] + es[1..] == es;
    }
  }

  lemma SplitLog(es: seq<WalEntry>, i: nat)
    requires i <= |es|
    ensures Log(es) == Log(es[..i]) + Log(es[i..])
    ensures i < |es| ==> Log(es[i..]) == Encode(es[i]) + Log(es[i + 1..])
    ensures i < |es| ==> Boundary(es, i + 1) == Boundary(es, i) + |Encode(es[i])|
  {
    hide Encode;
    assert es == es[..i] + es[i..];
    LogAppend(es[..i], es[i..]);
    if i < |es| {
      assert es[i..][1..] == es[i + 1..];
      assert es[..i + 1] == es[..i] + [es[i]];
      LogAppend(es[..i], [es[i]]);
      assert Log([es[i]]) == Encode(es[i]) + Log([es[i]][1..]);
    }
  }

  /** What a cut leaves behind boundary i: the beginning of the next entry, or nothing. */
  lemma CutTail(es: seq<WalEntry>, i: nat, n: nat) returns (part: seq<byte>)
    requires AllFit(es) && i <= |es|
    requires Boundary(es, i) <= n <= |Log(es)| && (i < |es| ==> n < Boundary(es, i + 1))
    ensures Log(es)[..n] == Log(es[..i]) + part
    ensures Replay(part, Boundary(es, i)) == Replayed([], if n == Boundary(es, i) then Clean else Torn)
  {
    hide Replay, Encode;
    var head := Log(es[..i]);
    SplitLog(es, i);
    part := Log(es)[|head|..n];
    if i < |es| {
      assert part == Encode(es[i])[..n - |head|];
      PartialEntry(es[i], n - |head|, |head|);
    } else {
      assert es[..i] == es && part == [];
      ReplayOfNothing(|head|);
    }
  }

  /** The prefix property: cut anywhere between boundary i and the next, the log replays its first i
      entries, and cleanly if and only if it was cut on the boundary itself. */
  lemma PrefixReplay(es: seq<WalEntry>, i: nat, n: nat)
    requires AllFit(es) && i <= |es|
    requires Boundary(es, i) <= n <= |Log(es)| && (i < |es| ==> n < Boundary(es, i + 1))
    ensures Replay(Log(es)[..n], 0) == Replayed(es[..i], if n == Boundary(es, i) then Clean else Torn)
  {
    hide Replay, Encode, Log;
    var part := CutTail(es, i, n);
    ReplayThrough(es[..i], part, 0);
    PrependNothing(es[..i], if n == Boundary(es, i) then Clean else Torn);
  }

  /** Every cut lies between two boundaries. */
  lemma {:induction false} SomeBoundary(es: seq<WalEntry>, n: nat) returns (i: nat)
    requires n <= |Log(es)|
    ensures i <= |es| && Boundary(es, i) <= n && (i < |es| ==> n < Boundary(es, i + 1))
  {
    i := |es|;
    assert es[..i] == es;
    while n < Boundary(es, i)
      invariant i <= |es| && (i < |es| ==> n < Boundary(es, i + 1))
      decreases i
    {
      assert es[..0] == [];
      i := i - 1;
    }
  }

  /** The first entry too long for its field is not read back. */
  lemma OverlongEntryGarbled(e: WalEntry, rest: seq<byte>, off: nat)
    requires !Fits(e)
    ensures var r := Replay(Encode(e) + rest, off); r.entries == [] || r.entries[0] != e
  {
    var b := Encode(e) + rest;
    Widths();
    FromLEBound(b[9..13]);
    assert DimAt(b) < |e.vector|;
  }

  lemma DifferentFrom(es: seq<WalEntry>, i: nat, tail: seq<WalEntry>)
    requires i < |es| && (tail == [] || tail[0] != es[i])
    ensures es[..i] + tail != es
  {
    if tail != [] {
      assert (es[..i] + tail)[i] == tail[0];
    }
  }

  lemma FittingLogReplays(es: seq<WalEntry>)
    requires AllFit(es)
    ensures Replay(Log(es), 0) == Replayed(es, Clean)
  {
    hide Replay, Encode;
    assert Log(es) + [] == Log(es);
    ReplayThrough(es, [], 0);
    ReplayOfNothing(|Log(es)|);
    PrependNothing(es, Clean);
  }

  lemma OverlongLogDiffers(es: seq<WalEntry>)
    requires !AllFit(es)
    ensures Replay(Log(es), 0) != Replayed(es, Clean)
  {
    hide Replay, Encode, Log, AllFit, Fits;
    var i := FirstOverlong(es);
    SplitLog(es, i);
    var rest := Log(es[i..]);
    var tail := Replay(rest, Boundary(es, i));
    OverlongEntryGarbled(es[i], Log(es[i + 1..]), Boundary(es, i));
    DifferentFrom(es, i, tail.entries);
    ReplayThrough(es[..i], rest, 0);
    assert Replay(Log(es), 0) == Prepend(es[..i], tail);
  }

  /** Replaying the whole log is the identity exactly when every dimension fits its field. */
  lemma ReplayIsIdentity(es: seq<WalEntry>)
    ensures Replay(Log(es), 0) == Replayed(es, Clean) <==> AllFit(es)
  {
    hide Replay, Log, AllFit;
    if AllFit(es) { FittingLogReplays(es); } else { OverlongLogDiffers(es); }
  }

  lemma FirstOverlong(es: seq<WalEntry>) returns (i: nat)
    requires !AllFit(es)
    ensures i < |es| && !Fits(es[i]) && AllFit(es[..i])
  {
    i := 0;
    while Fits(es[i])
      invariant i < |es| && AllFit(es[..i])
      invariant exists j :: i <= j < |es| && !Fits(es[j])
      decreases |es| - i
    {
      assert es[..i + 1] == es[..i] + [es[i]];
      i := i + 1;
    }
  }

  /** The writer: appended bytes wait in a buffer until a commit flushes them to the file. */
  class WalWriter {
    var file: seq<byte>
    var buffer: seq<byte>
    var committed: nat

    /** Opening an existing log keeps its bytes. */
    constructor (existing: seq<byte>)
      ensures file == existing && buffer == [] && committed == |existing|
    {
      file, buffer, committed := existing, [], |existing|;
    }

    method Append(e: WalEntry)
      modifies this`buffer
      ensures buffer == old(buffer) + Encode(e)
    {
      buffer := buffer + [INSERT_TAG];
      buffer := buffer + LE(e.id, 8);
      buffer := buffer + LE(|e.vector|, 4);
      buffer := buffer + EncodeWords(e.vector);
    }

    /** After a commit the file alone holds everything appended so far; if that is the log of some entries,
        they replay exactly when every dimension fits. */
    method Commit()
      modifies this
      ensures file == old(file + buffer) && buffer == [] && committed == |file|
      ensures forall es :: file == Log(es) ==> (Replay(file, 0) == Replayed(es, Clean) <==> AllFit(es))
    {
      file, buffer := file + buffer, [];
      committed := |file|;
      forall es | file == Log(es) ensures Replay(file, 0) == Replayed(es, Clean) <==> AllFit(es) {
        ReplayIsIdentity(es);
      }
    }

    /** Truncation to zero bytes once everything logged is sealed. */
    method Reset()
      requires buffer == []
      modifies this
      ensures file == [] && buffer == [] && committed == 0
    {
      file, buffer, committed := [], [], 0;
    }
  }
}
