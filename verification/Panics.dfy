/** When parsing may panic: which octets it takes, and that they do make it panic. */
module Panics {
  import opened Bytes
  import opened Streams
  import opened FieldValues
  import opened FieldCodec
  import opened Methods
  import opened Headers
  import opened Frames
  import opened Demultiplexing
  import opened EndToEnd
  import opened ArrayEnds

  const BLOB: byte := 'x' as int

  /** The tag of a byte array, and behind it the first octet of a negative length. */
  predicate NegativeLengthAt(w: bytes, i: nat) {
    i + 1 < |w| && w[i] == BLOB && w[i + 1] >= 128
  }

  predicate Calm(w: bytes) {
    forall i | 0 <= i < |w| :: !NegativeLengthAt(w, i)
  }

  lemma PartIsCalm(w: bytes, from: nat, to: nat)
    requires Calm(w) && from <= to <= |w|
    ensures Calm(w[from..to]) && Calm(w[from..])
  {
    forall i | 0 <= i < to - from ensures !NegativeLengthAt(w[from..to], i) {
      assert !NegativeLengthAt(w, from + i);
    }
    forall i | 0 <= i < |w| - from ensures !NegativeLengthAt(w[from..], i) {
      assert !NegativeLengthAt(w, from + i);
    }
  }

  predicate Panics<T>(r: Read<T>) {
    r.Failed? && r.error == NegativeLength
  }

  // ---------------------------------------------------------------- fields

  lemma LowLength(w: bytes)
    requires |w| == 4
    ensures FromBigEndian(w) > MAX_LONGSTR <==> w[0] >= 128
  {
    var a, b, c := w[..1], w[..2], w[..3];
    assert w[..4] == w && w[..|w| - 1] == c && c[..2] == b && b[..1] == a && a[..0] == [];
    assert FromBigEndian(a) == w[0];
    assert FromBigEndian(b) == 256 * FromBigEndian(a) + w[1];
    assert FromBigEndian(c) == 256 * FromBigEndian(b) + w[2];
    assert FromBigEndian(w) == 256 * FromBigEndian(c) + w[3];
  }

  /** Exactly: a byte array panics when its length is there and its first octet is 128 or more. */
  lemma BlobPanicsExactly(w: bytes)
    ensures Panics(ReadBlob(w)) <==> |w| >= 4 && w[0] >= 128
  {
    if |w| >= 4 {
      LowLength(w[..4]);
    }
  }

  lemma {:induction false} CalmField(w: bytes)
    requires Calm(w)
    ensures !Panics(ReadField(w))
    decreases |w|, 1
  {
    hide ReadTagged;
    if w != [] {
      FieldFromTag(w);
      PartIsCalm(w, 1, |w|);
      assert !NegativeLengthAt(w, 0);
      CalmTagged(w[0], w[1..]);
    }
  }

  lemma {:induction false} CalmTagged(tag: byte, w: bytes)
    requires Calm(w) && (tag == BLOB ==> w == [] || w[0] < 128)
    ensures !Panics(ReadTagged(tag, w))
    decreases |w|, 3
  {
    hide ReadArray, ReadTable, ReadBlob, ReadLongstr;
    BlobPanicsExactly(w);
    CalmArray(w);
    CalmTable(w);
    assert !Panics(ReadLongstr(w)) by { StringsAreCalm(w); }
  }

  lemma StringsAreCalm(w: bytes)
    ensures !Panics(ReadLongstr(w)) && !Panics(ReadShortstr(w))
  {
  }

  lemma {:induction false} CalmArray(w: bytes)
    requires Calm(w)
    ensures !Panics(ReadArray(w))
    decreases |w|, 2
  {
    hide ReadElems;
    if |w| >= 4 {
      var section := Limited(w[4..], Number(w, 4).value);
      PartIsCalm(w, 4, 4 + |section|);
      assert section == w[4..4 + |section|];
      CalmElems(section);
    }
  }

  lemma {:induction false} CalmElems(w: bytes)
    requires Calm(w)
    ensures !Panics(ReadElems(w))
    decreases |w|, 2
  {
    hide ReadField;
    CalmField(w);
    if ReadField(w).Got? {
      PartIsCalm(w, ReadField(w).used, |w|);
      CalmElems(w[ReadField(w).used..]);
    }
  }

  lemma {:induction false} CalmTable(w: bytes)
    requires Calm(w)
    ensures !Panics(ReadTable(w))
    decreases |w|, 2
  {
    hide ReadEntries, ReadLongstr;
    StringsAreCalm(w);
    var r := ReadLongstr(w);
    if r.Got? {
      SectionIsPart(w);
      PartIsCalm(w, 4, r.used);
      CalmEntries(r.value);
    }
  }

  lemma SectionIsPart(w: bytes)
    requires ReadLongstr(w).Got?
    ensures 4 <= ReadLongstr(w).used <= |w| && ReadLongstr(w).value == w[4..ReadLongstr(w).used]
  {
  }

  lemma {:induction false} CalmEntries(w: bytes)
    requires Calm(w)
    ensures !Panics(ReadEntries(w))
    decreases |w|, 2
  {
    hide ReadField, ReadShortstr;
    StringsAreCalm(w);
    var key := ReadShortstr(w);
    if w != [] && key.Got? {
      PartIsCalm(w, key.used, |w|);
      CalmField(w[key.used..]);
      var field := ReadField(w[key.used..]);
      if field.Got? {
        PartIsCalm(w, key.used + field.used, |w|);
        CalmEntries(w[key.used + field.used..]);
      }
    }
  }

  // ---------------------------------------------------------------- frames

  lemma CalmArg(k: Kind, w: bytes)
    requires Calm(w)
    ensures !Panics(ReadArg(k, w))
  {
    hide ReadTable, ReadShortstr, ReadLongstr;
    CalmTable(w);
    StringsAreCalm(w);
  }

  lemma {:induction false} CalmArgs(ks: seq<Kind>, w: bytes)
    requires Calm(w)
    ensures !Panics(ReadArgs(ks, w))
  {
    hide ReadArg;
    if ks != [] {
      CalmArg(ks[0], w);
      var a := ReadArg(ks[0], w);
      if a.Got? {
        PartIsCalm(w, a.used, |w|);
        CalmArgs(ks[1..], w[a.used..]);
      }
    }
  }

  lemma CalmMethod(w: bytes)
    requires Calm(w)
    ensures !Panics(ReadMethod(w))
  {
    hide ReadArgs, Schema, Selected;
    if |w| >= 4 {
      PartIsCalm(w, 4, |w|);
      var name := Selected(Number(w, 2).value, Number(w[2..], 2).value);
      if name.Some? {
        CalmArgs(Schema(name.value), w[4..]);
      }
    }
  }

  lemma CalmSlot(i: nat, w: bytes)
    requires Calm(w)
    ensures !Panics(ReadSlot(i, w))
  {
    hide ReadTable, ReadShortstr;
    CalmTable(w);
    StringsAreCalm(w);
  }

  lemma {:induction false} CalmProperties(mask: nat, i: nat, w: bytes, p: Properties<Table>)
    requires Calm(w) && i <= SLOTS
    ensures !Panics(ReadProperties(mask, i, w, p))
    decreases SLOTS - i
  {
    hide ReadSlot, HasProperty, Put;
    if i < SLOTS {
      if HasProperty(mask, i) {
        CalmSlot(i, w);
        var s := ReadSlot(i, w);
        if s.Got? {
          PartIsCalm(w, s.used, |w|);
          CalmProperties(mask, i + 1, w[s.used..], Put(p, i, s.value));
        }
      } else {
        CalmProperties(mask, i + 1, w, p);
      }
    }
  }

  lemma CalmHeader(w: bytes)
    requires Calm(w)
    ensures !Panics(ReadHeader(w))
  {
    hide ReadProperties;
    if |w| >= 14 {
      PartIsCalm(w, 14, |w|);
      CalmProperties(Number(w[12..], 2).value, 0, w[14..], NoProperties());
    }
  }

  lemma CalmFrame(w: bytes)
    requires Calm(w)
    ensures !Panics(ReadFrame(w))
  {
    hide ReadMethod, ReadHeader;
    if |w| >= 7 {
      PartIsCalm(w, 7, |w|);
      CalmMethod(w[7..]);
      CalmHeader(w[7..]);
    }
  }

  /** Octets in which no byte-array tag is followed by one of 128 or more are scanned without a panic. */
  lemma {:induction false} CalmIsScanned(w: bytes)
    requires Calm(w)
    ensures !Scanned(w).panicked
    decreases |w|
  {
    hide ReadFrame;
    CalmFrame(w);
    var r := ReadFrame(w);
    if r.Got? || r.error != EndOfFile {
      PartIsCalm(w, r.used, |w|);
      CalmIsScanned(w[r.used..]);
    }
  }

  // ---------------------------------------------------------------- heartbeats

  /** The octets of a heartbeat on a channel other than 0. */
  predicate StrayHeartbeatAt(w: bytes, i: nat) {
    && i + 8 <= |w|
    && w[i] == FRAME_HEARTBEAT && !(w[i + 1] == 0 && w[i + 2] == 0)
    && w[i + 3] == 0 && w[i + 4] == 0 && w[i + 5] == 0 && w[i + 6] == 0 && w[i + 7] == FRAME_END
  }

  predicate HasStrayHeartbeat(w: bytes) {
    exists i | 0 <= i < |w| :: StrayHeartbeatAt(w, i)
  }

  lemma {:induction false} ZeroMeansZeros(bs: bytes)
    ensures FromBigEndian(bs) == 0 <==> forall i | 0 <= i < |bs| :: bs[i] == 0
  {
    if bs != [] {
      var front := bs[..|bs| - 1];
      ZeroMeansZeros(front);
      assert bs == front + [bs[|bs| - 1]];
    }
  }

  /** Exactly: which octets are read as a heartbeat. */
  lemma HeartbeatsExactly(w: bytes)
    ensures ReadFrame(w).Got? && ReadFrame(w).value.HeartbeatFrame? && ReadFrame(w).value.channel != 0
      <==> StrayHeartbeatAt(w, 0)
    ensures StrayHeartbeatAt(w, 0) ==> ReadFrame(w).used == 8
  {
    hide ReadMethod, ReadHeader, FromBigEndian;
    if |w| >= 7 {
      var scratch := w[..7];
      TwoZeros(scratch[1..3]);
      FourZeros(scratch[3..7]);
      assert scratch[1..3] == [w[1], w[2]] && scratch[3..7] == [w[3], w[4], w[5], w[6]];
      if |w| >= 8 {
        LoneOctet(w[7]);
        assert w[7..][..1] == [w[7]];
      }
    }
  }

  lemma TwoZeros(bs: bytes)
    requires |bs| == 2
    ensures FromBigEndian(bs) == 0 <==> bs[0] == 0 && bs[1] == 0
  {
    ZeroMeansZeros(bs);
  }

  lemma FourZeros(bs: bytes)
    requires |bs| == 4
    ensures FromBigEndian(bs) == 0 <==> bs[0] == 0 && bs[1] == 0 && bs[2] == 0 && bs[3] == 0
  {
    ZeroMeansZeros(bs);
  }

  lemma {:induction false} StrayFramesAreThere(w: bytes)
    ensures !AllTolerated(Scanned(w).frames) ==> HasStrayHeartbeat(w)
    decreases |w|
  {
    hide ReadFrame;
    var r := ReadFrame(w);
    if r.Got? || (r.error != EndOfFile && r.error != NegativeLength) {
      StrayFramesAreThere(w[r.used..]);
      if HasStrayHeartbeat(w[r.used..]) {
        var i :| 0 <= i < |w[r.used..]| && StrayHeartbeatAt(w[r.used..], i);
        assert StrayHeartbeatAt(w, r.used + i);
      }
      HeartbeatsExactly(w);
      if r.Got? && !Tolerated(r.value) {
        assert StrayHeartbeatAt(w, 0);
      }
    }
  }

  // ---------------------------------------------------------------- parsing

  /** What makes the parse loop panic, in terms of what is read. */
  lemma ParsingPanicsExactly(cs: Channels, w: bytes)
    requires AllConsistent(cs)
    ensures Parsed(cs, w).Panicked? <==> Scanned(w).panicked || !AllTolerated(Scanned(w).frames)
  {
    hide Scanned, Demuxed, AllTolerated;
    PanicsExactlyOnStrayHeartbeats(cs, Scanned(w).frames);
  }

  /**
   In terms of the octets alone: parsing them panics only if they hold a byte-array tag followed by an
   octet of 128 or more, or the octets of a heartbeat on a channel other than 0.
   */
  lemma OnlyTheseOctetsPanic(cs: Channels, w: bytes)
    requires AllConsistent(cs) && Parsed(cs, w).Panicked?
    ensures !Calm(w) || HasStrayHeartbeat(w)
  {
    hide Scanned, Parsed, AllTolerated, Calm, HasStrayHeartbeat;
    ParsingPanicsExactly(cs, w);
    StrayFramesAreThere(w);
    if Calm(w) {
      CalmIsScanned(w);
    }
  }

  // ---------------------------------------------------------------- they do

  lemma NegativeLengthPanics(h: byte, a: byte, b: byte, c: byte)
    requires h >= 128
    ensures ReadField([BLOB, h, a, b, c]) == Failed(NegativeLength, 5)
  {
    hide ReadBlob;
    var w := [BLOB, h, a, b, c];
    FieldFromTag(w);
    assert w[1..] == [h, a, b, c];
    BlobPanicsExactly([h, a, b, c]);
    assert ReadBlob([h, a, b, c]).used == 4 by { BlobUses([h, a, b, c]); }
  }

  lemma BlobUses(w: bytes)
    requires |w| == 4 && Panics(ReadBlob(w))
    ensures ReadBlob(w).used == 4
  {
  }

  /** Any of those heartbeats does, wherever a frame begins. */
  lemma StrayHeartbeatPanics(cs: Channels, w: bytes)
    requires AllConsistent(cs) && StrayHeartbeatAt(w, 0)
    ensures Parsed(cs, w).Panicked?
  {
    hide ReadFrame;
    HeartbeatsExactly(w);
    ParsingPanicsExactly(cs, w);
    var s := Scanned(w).frames;
    assert s[0] == ReadFrame(w).value && !Tolerated(s[0]);
  }

  function Section(h: byte, a: byte, b: byte, c: byte): bytes {
    [1, 'k' as int, BLOB, h, a, b, c]
  }

  lemma SectionPanics(h: byte, a: byte, b: byte, c: byte)
    requires h >= 128
    ensures Panics(ReadEntries(Section(h, a, b, c)))
  {
    hide ReadField, FromBigEndian;
    var w := Section(h, a, b, c);
    LoneOctet(1);
    assert w[..1] == [1] && w[1..][..1] == ['k' as int] && w[2..] == [BLOB, h, a, b, c];
    assert ReadShortstr(w) == Got(['k' as int], 2);
    NegativeLengthPanics(h, a, b, c);
  }

  /** A connection.start-ok whose table has such a byte array, in a frame on channel 0. */
  function StartOk(h: byte, a: byte, b: byte, c: byte): bytes {
    [1, 0, 0, 0, 0, 0, 0] + ([0, 10, 0, 11] + ([0, 0, 0, 7] + Section(h, a, b, c)))
  }

  lemma TablePanics(h: byte, a: byte, b: byte, c: byte)
    requires h >= 128
    ensures Panics(ReadTable([0, 0, 0, 7] + Section(h, a, b, c)))
  {
    hide ReadEntries, ReadLongstr;
    var w := [0, 0, 0, 7] + Section(h, a, b, c);
    assert w[..3] == [0, 0, 0] && w[4..] == Section(h, a, b, c) && w[4..][..7] == w[4..];
    LongstrFromLength(w);
    SectionPanics(h, a, b, c);
  }

  lemma StartOkPanics(h: byte, a: byte, b: byte, c: byte)
    requires h >= 128
    ensures Panics(ReadMethod([0, 10, 0, 11] + ([0, 0, 0, 7] + Section(h, a, b, c))))
  {
    hide ReadTable, FromBigEndian, Section;
    var w := [0, 10, 0, 11] + ([0, 0, 0, 7] + Section(h, a, b, c));
    SmallNumber(10);
    SmallNumber(11);
    assert w[..2] == [0, 10] && w[2..][..2] == [0, 11] && w[4..] == [0, 0, 0, 7] + Section(h, a, b, c);
    TablePanics(h, a, b, c);
    assert Number(w, 2) == Got(10, 2) && Number(w[2..], 2) == Got(11, 2);
    FirstArgPanics(Schema(ConnectionStartOk), w[4..]);
  }

  lemma SmallNumber(n: byte)
    ensures FromBigEndian([0, n]) == n
  {
    LoneOctet(0);
    assert [0, n][..1] == [0];
  }

  lemma FirstArgPanics(ks: seq<Kind>, w: bytes)
    requires ks != [] && ks[0] == FieldTable && Panics(ReadTable(w))
    ensures Panics(ReadArgs(ks, w))
  {
    hide ReadTable;
  }

  /** So it does reach the loop of Parse. */
  lemma NegativeLengthReachesParse(cs: Channels, h: byte, a: byte, b: byte, c: byte)
    requires AllConsistent(cs) && h >= 128
    ensures Parsed(cs, StartOk(h, a, b, c)).Panicked?
  {
    hide ReadMethod, FromBigEndian, Section;
    var w := StartOk(h, a, b, c);
    assert |w| >= 7 && w[..7] == [1, 0, 0, 0, 0, 0, 0];
    assert w[7..] == [0, 10, 0, 11] + ([0, 0, 0, 7] + Section(h, a, b, c));
    StartOkPanics(h, a, b, c);
    assert Panics(ReadFrame(w));
    ParsingPanicsExactly(cs, w);
  }
}
