/** Which methods bring content, by their names, and what becomes of them and of all others. */
module ContentFormat {
  import opened Bytes
  import opened FieldValues
  import opened Methods
  import opened Headers
  import opened Frames
  import opened Reassembly
  import opened Demultiplexing
  import opened EndToEnd
  import opened TypedMessages

  /** Whatever octets are parsed: what is dispatched has content if and only if it has one of four names. */
  lemma DispatchedContentIsByName(w: bytes, c: uint16, i: nat)
    requires i < |StateOf(Parsed(map[], w).channels, c).log|
    ensures var m := StateOf(Parsed(map[], w).channels, c).log[i];
      m.Content? <==> m.command.name in {BasicPublish, BasicReturn, BasicDeliver, BasicGetOk}
  {
    hide Parsed;
    assert SoundChannels(map[]);
    DispatchedMessagesAreSound(map[], w, c);
    assert Sound(StateOf(Parsed(map[], w).channels, c).log[i]);
  }

  /** The size is reached by the last of the chunks, and not before; a size of 0 by none. */
  predicate FirstReaches(chunks: seq<bytes>, size: nat) {
    if chunks == [] then size == 0
    else |Flat(chunks[..|chunks| - 1])| < size <= |Flat(chunks)|
  }

  lemma {:induction false} FlatOfFirst(chunks: seq<bytes>)
    requires |chunks| > 1
    ensures Flat(chunks[..|chunks| - 1]) == chunks[0] + Flat(chunks[1..][..|chunks| - 2])
  {
    assert chunks[..|chunks| - 1][1..] == chunks[1..][..|chunks| - 2];
  }

  lemma {:induction false} BodiesReach(s: State, c: uint16, chunks: seq<bytes>)
    requires Consistent(s) && s.recv == AwaitContent && chunks != []
    requires |s.body| + |Flat(chunks[..|chunks| - 1])| < s.header.value.size <= |s.body| + |Flat(chunks)|
    ensures AllExpected(BodyFrames(c, chunks))
    ensures var r := Run(s, BodyFrames(c, chunks));
      && r.recv == AwaitMethod
      && r.log == s.log + [Content(s.message.value, s.header.value.properties, s.body + Flat(chunks))]
    decreases |chunks|
  {
    hide Run;
    var f: Received := BodyFrame(c, chunks[0]);
    var next := Step(s, f);
    assert s.body + Flat(chunks) == (s.body + chunks[0]) + Flat(chunks[1..]);
    if |chunks| > 1 {
      FlatOfFirst(chunks);
      BodiesReach(next, c, chunks[1..]);
    } else {
      assert chunks[1..] == [] && chunks[..0] == [];
      assert Flat(chunks) == chunks[0] + Flat(chunks[1..]) == chunks[0];
      NothingRuns(next);
      assert BodyFrames<Table>(c, chunks[1..]) == [];
    }
    RunFirst(s, f, BodyFrames(c, chunks[1..]));
  }

  /**
   From any state: a method frame with one of the four names, a header, and bodies that first reach its
   size, are dispatched whole, and the channel is idle again.
   */
  lemma NamedContentIsDispatched(s: State, c: uint16, m: Method<Table>, h: Header<Table>, chunks: seq<bytes>)
    requires Consistent(s) && FirstReaches(chunks, h.size)
    requires m.name in {BasicPublish, BasicReturn, BasicDeliver, BasicGetOk}
    ensures AllExpected([MethodFrame(c, m)] + ([HeaderFrame(c, h)] + BodyFrames(c, chunks)))
    ensures var r := Run(s, [MethodFrame(c, m)] + ([HeaderFrame(c, h)] + BodyFrames(c, chunks)));
      r.recv == AwaitMethod && r.log == s.log + [Content(m, h.properties, Flat(chunks))]
  {
    hide Run;
    var opening: Received, header: Received := MethodFrame(c, m), HeaderFrame(c, h);
    var s1 := Step(s, opening);
    var s2 := Step(s1, header);
    assert s1.recv == AwaitHeader && s1.body == [] && s1.message == Some(m) && s1.log == s.log;
    assert [] + Flat(chunks) == Flat(chunks);
    if chunks == [] {
      NothingRuns(s2);
    } else {
      BodiesReach(s2, c, chunks);
    }
    RunFirst(s1, header, BodyFrames(c, chunks));
    RunFirst(s, opening, [header] + BodyFrames(c, chunks));
  }

  /** From any state: a method frame with any other name is dispatched by itself. */
  lemma OthersAreDispatchedBare(s: State, c: uint16, m: Method<Table>)
    requires Consistent(s) && m.name !in {BasicPublish, BasicReturn, BasicDeliver, BasicGetOk}
    ensures var r := Step(s, MethodFrame(c, m));
      r.recv == AwaitMethod && r.log == s.log + [Bare(m)]
  {
  }
}
