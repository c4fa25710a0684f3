/**
 What the parser may rely on when it dispatches: every message has the arguments that its method
 declares, and comes with content exactly when its method carries content.
 */
module TypedMessages {
  import opened Bytes
  import opened Streams
  import opened Methods
  import opened Frames
  import opened Reassembly
  import opened Demultiplexing
  import opened EndToEnd

  // ---------------------------------------------------------------- decoding

  lemma ArgIsTyped(k: Kind, w: bytes)
    requires ReadArg(k, w).Got? && (k.FlagBits? ==> k.count <= 8)
    ensures Typed(k, ReadArg(k, w).value)
  {
  }

  lemma {:induction false} ArgsAreTyped(ks: seq<Kind>, w: bytes)
    requires ReadArgs(ks, w).Got? && forall i | 0 <= i < |ks| :: ks[i].FlagBits? ==> ks[i].count <= 8
    ensures AllTyped(ks, ReadArgs(ks, w).value)
  {
    hide ReadArg, Typed;
    if ks != [] {
      var first, rest := ReadArg(ks[0], w), ReadArgs(ks[1..], w[ReadArg(ks[0], w).used..]);
      ArgIsTyped(ks[0], w);
      ArgsAreTyped(ks[1..], w[first.used..]);
      forall i | 0 <= i < |ks| ensures Typed(ks[i], ReadArgs(ks, w).value[i]) {
        if i > 0 {
          assert ks[1..][i - 1] == ks[i] && rest.value[i - 1] == ReadArgs(ks, w).value[i];
        }
      }
    }
  }

  lemma FlagsFit(name: MethodName)
    ensures forall i | 0 <= i < |Schema(name)| :: Schema(name)[i].FlagBits? ==> Schema(name)[i].count <= 8
  {
  }

  lemma MethodIsTyped(w: bytes)
    requires ReadMethod(w).Got?
    ensures WellTyped(ReadMethod(w).value)
  {
    hide ReadArgs, Schema, AllTyped;
    FlagsFit(ReadMethod(w).value.name);
    ArgsAreTyped(Schema(ReadMethod(w).value.name), w[4..]);
  }

  predicate TypedFrame(f: Received) {
    f.MethodFrame? ==> WellTyped(f.command)
  }

  predicate AllTypedFrames(fs: seq<Received>) {
    forall i | 0 <= i < |fs| :: TypedFrame(fs[i])
  }

  lemma FrameIsTyped(w: bytes)
    requires ReadFrame(w).Got?
    ensures TypedFrame(ReadFrame(w).value)
  {
    hide ReadMethod, WellTyped;
    if ReadFrame(w).value.MethodFrame? {
      MethodIsTyped(w[7..]);
    }
  }

  lemma {:induction false} ScannedAreTyped(w: bytes)
    ensures AllTypedFrames(Scanned(w).frames)
    decreases |w|
  {
    hide ReadFrame, TypedFrame;
    var r := ReadFrame(w);
    if r.Got? {
      FrameIsTyped(w);
      ScannedAreTyped(w[r.used..]);
    } else if r.error != EndOfFile && r.error != NegativeLength {
      ScannedAreTyped(w[r.used..]);
    }
  }

  // ---------------------------------------------------------------- reassembly

  predicate Sound(m: Message) {
    WellTyped(m.command) && (m.Content? <==> CarriesContent(m.command.name))
  }

  predicate AllSound(ms: seq<Message>) {
    forall i | 0 <= i < |ms| :: Sound(ms[i])
  }

  predicate SoundState(s: State) {
    && AllSound(s.log)
    && (s.recv != AwaitMethod ==>
          s.message.Some? && WellTyped(s.message.value) && CarriesContent(s.message.value.name))
  }

  predicate SoundChannels(cs: Channels) {
    forall c | c in cs :: SoundState(cs[c])
  }

  lemma StepKeepsSound(s: State, f: Received)
    requires Consistent(s) && Expected(f) && SoundState(s) && TypedFrame(f)
    ensures SoundState(Step(s, f))
  {
    hide WellTyped, CarriesContent;
  }

  lemma {:induction false} DemuxedKeepsSound(cs: Channels, fs: seq<Received>)
    requires AllConsistent(cs) && SoundChannels(cs) && AllTypedFrames(fs)
    ensures SoundChannels(Demuxed(cs, fs).channels)
  {
    hide Step, SoundState, TypedFrame, Consistent;
    if fs != [] {
      var f, o := fs[|fs| - 1], Demuxed(cs, fs[..|fs| - 1]);
      DemuxedKeepsSound(cs, fs[..|fs| - 1]);
      FreshIsSound();
      if Expected(f) {
        StepKeepsSound(StateOf(o.channels, f.channel), f);
      }
    }
  }

  lemma FreshIsSound()
    ensures SoundState(FRESH)
  {
  }

  /** Whatever octets are parsed, every message any channel dispatches is sound. */
  lemma DispatchedMessagesAreSound(cs: Channels, w: bytes, c: uint16)
    requires AllConsistent(cs) && SoundChannels(cs)
    ensures SoundChannels(Parsed(cs, w).channels)
    ensures AllSound(StateOf(Parsed(cs, w).channels, c).log)
  {
    hide Scanned, Demuxed;
    ScannedAreTyped(w);
    DemuxedKeepsSound(cs, Scanned(w).frames);
  }
}
