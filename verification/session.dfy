/**
 * The state of one `AudioAfade` object: the five FFmpeg handles it owns, the
 * format parameters it was built with and the timestamp counter; how the
 * constructor fills that state in; and how `Cleanup` tears it down.
 *
 * A handle is modelled as an "owned" flag: true where the C++ member holds a
 * non-null pointer that the object must free. FFmpeg's lookups, opens and
 * filter creations are outcomes given to the constructor as parameters.
 */
module Session {

  /** `AudioAfade::FadeType`. */
  datatype FadeType = FadeNone | FadeIn | FadeOut

  /** `AVSampleFormat`: `AV_SAMPLE_FMT_NONE` or one of FFmpeg's format codes. */
  datatype SampleFormat = FormatNone | Format(code: nat)

  /** The resources the object may own, named after the members that hold them. */
  datatype Handle = DecoderContext | EncoderContext | FilterGraph | SourceFilter | SinkFilter

  /** The members of `AudioAfade`. */
  datatype State = State(
    decoder: bool,          // dec_ctx_ != nullptr
    encoder: bool,          // enc_ctx_ != nullptr
    graph: bool,            // filter_graph_ != nullptr
    source: bool,           // src_ctx_ != nullptr
    sink: bool,             // sink_ctx_ != nullptr
    fadeType: FadeType,
    sampleRate: int,
    channels: int,
    sampleFormat: SampleFormat,
    totalFrames: int,
    ptsCounter: int)
  {
    /** The handles this state owns. */
    function Owned(): (r: set<Handle>)
      ensures DecoderContext in r <==> decoder
      ensures EncoderContext in r <==> encoder
      ensures FilterGraph in r <==> graph
      ensures SourceFilter in r <==> source
      ensures SinkFilter in r <==> sink
    {
      (if decoder then {DecoderContext} else {})
        + (if encoder then {EncoderContext} else {})
        + (if graph then {FilterGraph} else {})
        + (if source then {SourceFilter} else {})
        + (if sink then {SinkFilter} else {})
    }
  }

  /**
   * The filter contexts live inside the graph: `InitFilterGraph` allocates the
   * graph before it creates either endpoint.
   */
  ghost predicate WellFormed(s: State) {
    (s.source || s.sink) ==> s.graph
  }

  // ---------------------------------------------------------------------------
  // Construction
  // ---------------------------------------------------------------------------

  /** How far `InitFilterGraph` gets: the step that fails, or `Configured`. */
  datatype GraphStage =
    | SourceFails   // abuffer could not be created
    | FormatFails   // aformat could not be created
    | FadeFails     // afade could not be created
    | SinkFails     // abuffersink could not be created
    | ConfigFails   // avfilter_graph_config failed
    | Configured

  /** What FFmpeg answers to each step of the constructor. */
  datatype Setup = Setup(
    decoderFound: bool,   // avcodec_find_decoder(AV_CODEC_ID_AAC) != nullptr
    decoderOpens: bool,   // avcodec_open2 on the decoder context succeeds
    encoderOpens: bool,   // avcodec_open2 on the encoder context succeeds
    graph: GraphStage)

  /** The handles `InitFilterGraph` leaves behind, and the result it returns. */
  function InitFilterGraph(s: State, stage: GraphStage): (r: (State, bool))
    ensures r.0.graph && (r.0.source <==> stage != SourceFails)
    ensures r.0.sink <==> stage in {ConfigFails, Configured}
    ensures r.1 <==> stage == Configured
    ensures r.0.(graph := s.graph, source := s.source, sink := s.sink) == s
  {
    var s1 := s.(graph := true, source := stage != SourceFails);
    var s2 := s1.(sink := stage in {ConfigFails, Configured});
    (s2, stage == Configured)
  }

  /**
   * The constructor. It stores the parameters, then stops at the first failing
   * decoder or encoder step, and otherwise builds the filter graph and ignores
   * whether that worked. The result is an object in every case.
   */
  function Construct(sampleRate: int, channels: int, format: SampleFormat, fadeType: FadeType,
                     totalFrames: int, setup: Setup): (s: State)
    ensures s.sampleRate == sampleRate && s.channels == channels && s.sampleFormat == format
    ensures s.fadeType == fadeType && s.totalFrames == totalFrames && s.ptsCounter == 0
    ensures s.decoder <==> setup.decoderFound
    ensures s.encoder <==> setup.decoderFound && setup.decoderOpens
    ensures s.graph <==> setup.decoderFound && setup.decoderOpens && setup.encoderOpens
    ensures WellFormed(s)
  {
    var s0 := State(false, false, false, false, false, fadeType, sampleRate, channels, format, totalFrames, 0);
    if !setup.decoderFound then s0
    else
      var s1 := s0.(decoder := true);
      if !setup.decoderOpens then s1
      else
        // The encoder lookup is not checked: a context is allocated even when
        // no AAC encoder exists, and only avcodec_open2 can then fail.
        var s2 := s1.(encoder := true);
        if !setup.encoderOpens then s2
        else InitFilterGraph(s2, setup.graph).0
  }

  /**
   * Construction does not fail closed: an object whose filter graph failed to
   * configure is indistinguishable from one whose graph works, so no later call
   * can refuse to run on it.
   */
  lemma ConfigFailureUndetectable(sampleRate: int, channels: int, format: SampleFormat,
                                  fadeType: FadeType, totalFrames: int)
    ensures Construct(sampleRate, channels, format, fadeType, totalFrames, Setup(true, true, true, ConfigFails))
         == Construct(sampleRate, channels, format, fadeType, totalFrames, Setup(true, true, true, Configured))
  {
  }

  /**
   * More generally, a failed graph step leaves both codecs open and the graph
   * allocated, whichever step it was; the object keeps no record of the failure.
   */
  lemma GraphFailureKeepsCodecs(sampleRate: int, channels: int, format: SampleFormat,
                                fadeType: FadeType, totalFrames: int, stage: GraphStage)
    ensures var s := Construct(sampleRate, channels, format, fadeType, totalFrames, Setup(true, true, true, stage));
      s.decoder && s.encoder && s.graph
      && (s.source <==> stage != SourceFails)
      && (s.sink <==> stage == ConfigFails || stage == Configured)
  {
  }

  /**
   * Both filter endpoints exist exactly when both codecs opened and the graph
   * got past creating the sink; and an endpoint never exists without an
   * encoder context, because the graph is only built once the encoder opened.
   */
  lemma ConstructEndpoints(sampleRate: int, channels: int, format: SampleFormat, fadeType: FadeType,
                           totalFrames: int, setup: Setup)
    ensures var s := Construct(sampleRate, channels, format, fadeType, totalFrames, setup);
      && (s.source && s.sink <==>
            setup.decoderFound && setup.decoderOpens && setup.encoderOpens
            && setup.graph in {ConfigFails, Configured})
      && (s.source || s.sink ==> s.encoder)
  {
  }

  // ---------------------------------------------------------------------------
  // Teardown
  // ---------------------------------------------------------------------------

  /** The order in which `Cleanup` tests and frees the pointers. */
  const ReleaseOrder: seq<Handle> := [SourceFilter, SinkFilter, FilterGraph, DecoderContext, EncoderContext]

  /**
   * Whether `Cleanup` frees `h`: the filter endpoints are only looked at while
   * the graph pointer is set; every other pointer is freed when non-null.
   */
  predicate Frees(s: State, h: Handle) {
    match h
    case SourceFilter => s.graph && s.source
    case SinkFilter => s.graph && s.sink
    case FilterGraph => s.graph
    case DecoderContext => s.decoder
    case EncoderContext => s.encoder
  }

  /** The handles of `xs` that `Cleanup` frees, in the order of `xs`. */
  function Freed(s: State, xs: seq<Handle>): (r: seq<Handle>)
    ensures forall h :: h in r <==> h in xs && Frees(s, h)
    ensures |r| <= |xs|
  {
    if |xs| == 0 then [] else (if Frees(s, xs[0]) then [xs[0]] else []) + Freed(s, xs[1..])
  }

  /** `Cleanup`: the state it leaves and the handles it frees, in order. */
  function Cleanup(s: State): (r: (State, seq<Handle>))
  {
    var t := State(
      decoder := false,
      encoder := false,
      graph := false,
      source := s.source && !s.graph,
      sink := s.sink && !s.graph,
      fadeType := FadeNone,
      sampleRate := 0,
      channels := 0,
      sampleFormat := FormatNone,
      totalFrames := 0,
      ptsCounter := 0);
    (t, Freed(s, ReleaseOrder))
  }

  /** The state every scalar member is reset to. */
  predicate ScalarsReset(s: State) {
    s.fadeType == FadeNone && s.sampleRate == 0 && s.channels == 0
      && s.sampleFormat == FormatNone && s.totalFrames == 0 && s.ptsCounter == 0
  }

  /** No handle appears twice. */
  predicate Distinct(xs: seq<Handle>) {
    forall i, j :: 0 <= i < j < |xs| ==> xs[i] != xs[j]
  }

  /** `Cleanup` leaves every pointer of a well-formed object null and every scalar reset. */
  lemma CleanupNullsAll(s: State)
    requires WellFormed(s)
    ensures Cleanup(s).0.Owned() == {}
    ensures ScalarsReset(Cleanup(s).0)
  {
    var t := Cleanup(s).0;
    assert !t.decoder && !t.encoder && !t.graph && !t.source && !t.sink;
    if h :| h in t.Owned() {
      assert false;
    }
  }

  /**
   * On a well-formed object `Cleanup` frees exactly the handles the object
   * owns, and each of them once.
   */
  lemma CleanupFreesOwned(s: State)
    requires WellFormed(s)
    ensures (set h | h in Cleanup(s).1) == s.Owned()
    ensures Distinct(Cleanup(s).1)
  {
    FreedDistinct(s, ReleaseOrder);
  }

  /** Freeing in the order of a list without repeats frees nothing twice. */
  lemma {:induction false} FreedDistinct(s: State, xs: seq<Handle>)
    requires Distinct(xs)
    ensures Distinct(Freed(s, xs))
    decreases |xs|
  {
    if |xs| > 0 {
      FreedDistinct(s, xs[1..]);
      assert xs[0] !in xs[1..];
    }
  }

  /** Endpoints first, then the graph, then the decoder, then the encoder. */
  lemma CleanupOrder(s: State)
    requires s.graph && s.source && s.sink && s.decoder && s.encoder
    ensures Cleanup(s).1 == [SourceFilter, SinkFilter, FilterGraph, DecoderContext, EncoderContext]
  {
    FreedAll(s, ReleaseOrder);
  }

  /** When `Cleanup` frees every handle of a list, it frees them in the list's order. */
  lemma {:induction false} FreedAll(s: State, xs: seq<Handle>)
    requires forall i :: 0 <= i < |xs| ==> Frees(s, xs[i])
    ensures Freed(s, xs) == xs
    decreases |xs|
  {
    if |xs| > 0 {
      FreedAll(s, xs[1..]);
    }
  }

  /**
   * A second `Cleanup` frees nothing and changes nothing, whatever the state,
   * so the destructor's call after an explicit one cannot double-free.
   */
  lemma CleanupIdempotent(s: State)
    ensures Cleanup(Cleanup(s).0).0 == Cleanup(s).0
    ensures Cleanup(Cleanup(s).0).1 == []
  {
    FreedNone(Cleanup(s).0, ReleaseOrder);
  }

  /** When `Cleanup` frees no handle of a list, the list it frees is empty. */
  lemma {:induction false} FreedNone(s: State, xs: seq<Handle>)
    requires forall i :: 0 <= i < |xs| ==> !Frees(s, xs[i])
    ensures Freed(s, xs) == []
    decreases |xs|
  {
    if |xs| > 0 {
      FreedNone(s, xs[1..]);
    }
  }

  /** Every handle the object ever gets from its constructor is freed by one `Cleanup`. */
  lemma ConstructThenCleanup(sampleRate: int, channels: int, format: SampleFormat, fadeType: FadeType,
                             totalFrames: int, setup: Setup)
    ensures var s := Construct(sampleRate, channels, format, fadeType, totalFrames, setup);
      && Cleanup(s).0.Owned() == {}
      && (set h | h in Cleanup(s).1) == s.Owned()
  {
    var s := Construct(sampleRate, channels, format, fadeType, totalFrames, setup);
    CleanupNullsAll(s);
    CleanupFreesOwned(s);
  }
}
