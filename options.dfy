/** options.go: the Options record, the functional options that set it up,
    and initOptions, which applies them in order to a zero-valued record. */
module GnetOptions {

  /** An ICodec interface value. The codec implementations are not part of
      this model, so a codec is only told apart from another one:
      NilCodec is the nil interface, BuiltInFrameCodec the engine's default,
      UserCodec any other implementation. */
  datatype Codec = NilCodec | BuiltInFrameCodec | UserCodec(id: nat)

  /** The Options struct; tcpKeepAlive stands for a time.Duration. */
  datatype Options = Options(
    multicore: bool,
    reusePort: bool,
    ticker: bool,
    tcpKeepAlive: int,
    codec: Codec)

  /** What `new(Options)` yields: every field at Go's zero value. */
  const ZeroOptions := Options(false, false, false, 0, NilCodec)

  /** An Option closure, named after the With* function that builds it and
      carrying the value that function captured. */
  datatype Option =
    | WithOptions(options: Options)
    | WithMulticore(multicore: bool)
    | WithReusePort(reusePort: bool)
    | WithTCPKeepAlive(tcpKeepAlive: int)
    | WithTicker(ticker: bool)
    | WithCodec(codec: Codec)

  /** The fields of Options, for stating which ones a setter touches. */
  datatype Field = Multicore | ReusePort | Ticker | TCPKeepAlive | CodecField

  /** The value of one field, whatever its type. */
  datatype Value = Flag(flag: bool) | Duration(duration: int) | CodecValue(codec: Codec)

  function Get(o: Options, f: Field): (v: Value) {
    match f
    case Multicore => Flag(o.multicore)
    case ReusePort => Flag(o.reusePort)
    case Ticker => Flag(o.ticker)
    case TCPKeepAlive => Duration(o.tcpKeepAlive)
    case CodecField => CodecValue(o.codec)
  }

  /** Two records with the same value in every field are the same record. */
  lemma FieldsDetermine(a: Options, b: Options)
    requires forall f :: Get(a, f) == Get(b, f)
    ensures a == b
  {
    assert Get(a, Multicore) == Get(b, Multicore);
    assert Get(a, ReusePort) == Get(b, ReusePort);
    assert Get(a, Ticker) == Get(b, Ticker);
    assert Get(a, TCPKeepAlive) == Get(b, TCPKeepAlive);
    assert Get(a, CodecField) == Get(b, CodecField);
  }

  /** A setter other than WithOptions sets exactly one field. */
  predicate SingleField(opt: Option) {
    !opt.WithOptions?
  }

  function FieldOf(opt: Option): (f: Field)
    requires SingleField(opt)
  {
    match opt
    case WithMulticore(_) => Multicore
    case WithReusePort(_) => ReusePort
    case WithTCPKeepAlive(_) => TCPKeepAlive
    case WithTicker(_) => Ticker
    case WithCodec(_) => CodecField
  }

  function ValueOf(opt: Option): (v: Value)
    requires SingleField(opt)
  {
    match opt
    case WithMulticore(b) => Flag(b)
    case WithReusePort(b) => Flag(b)
    case WithTCPKeepAlive(d) => Duration(d)
    case WithTicker(b) => Flag(b)
    case WithCodec(c) => CodecValue(c)
  }

  /** Running the closure `option(opts)`: WithOptions overwrites the whole
      record, every other setter writes its own field and leaves the rest. */
  function Apply(opt: Option, opts: Options): (r: Options)
    ensures opt.WithOptions? ==> r == opt.options
    ensures SingleField(opt) ==> Get(r, FieldOf(opt)) == ValueOf(opt)
    ensures SingleField(opt) ==> forall f :: f != FieldOf(opt) ==> Get(r, f) == Get(opts, f)
  {
    match opt
    case WithOptions(o) => o
    case WithMulticore(b) => opts.(multicore := b)
    case WithReusePort(b) => opts.(reusePort := b)
    case WithTCPKeepAlive(d) => opts.(tcpKeepAlive := d)
    case WithTicker(b) => opts.(ticker := b)
    case WithCodec(c) => opts.(codec := c)
  }

  /** The options applied one after the other, the first one first. */
  function ApplyAll(o: Options, options: seq<Option>): (r: Options)
    decreases |options|
  {
    if options == [] then o
    else Apply(options[|options| - 1], ApplyAll(o, options[..|options| - 1]))
  }

  /** initOptions: a fresh zero record that each option updates in turn. */
  method InitOptions(options: seq<Option>) returns (opts: Options)
    ensures opts == ApplyAll(ZeroOptions, options)
    ensures options == [] ==> opts == ZeroOptions
  {
    opts := ZeroOptions;
    for i := 0 to |options|
      invariant opts == ApplyAll(ZeroOptions, options[..i])
    {
      assert options[..i + 1][..i] == options[..i];
      opts := Apply(options[i], opts);
    }
    assert options[..|options|] == options;
  }

  /** Applying two lists in a row is applying their concatenation. */
  lemma {:induction false} ApplyAllAppend(o: Options, s: seq<Option>, t: seq<Option>)
    ensures ApplyAll(o, s + t) == ApplyAll(ApplyAll(o, s), t)
    decreases |t|
  {
    if t == [] {
      assert s + t == s;
    } else {
      var t' := t[..|t| - 1];
      assert (s + t)[..|s + t| - 1] == s + t';
      assert (s + t)[|s + t| - 1] == t[|t| - 1];
      ApplyAllAppend(o, s, t');
    }
  }

  /** Left to right: the first option is applied to the zero record first
      and the rest to its result. */
  lemma InitOptionsFirstFirst(first: Option, rest: seq<Option>)
    ensures ApplyAll(ZeroOptions, [first] + rest) == ApplyAll(Apply(first, ZeroOptions), rest)
  {
    ApplyAllAppend(ZeroOptions, [first], rest);
    assert [first][..0] == [];
  }

  /** WithOptions discards whatever was applied before it. */
  lemma WithOptionsDiscards(o: Options, before: seq<Option>, x: Options, after: seq<Option>)
    ensures ApplyAll(o, before + [WithOptions(x)] + after) == ApplyAll(x, after)
  {
    ApplyAllAppend(o, before + [WithOptions(x)], after);
    ApplyAllAppend(o, before, [WithOptions(x)]);
    assert [WithOptions(x)][..0] == [];
  }

  /** A list of options none of which touches field f leaves f as it was. */
  lemma {:induction false} ApplyAllFrame(o: Options, s: seq<Option>, f: Field)
    requires forall j :: 0 <= j < |s| ==> SingleField(s[j]) && FieldOf(s[j]) != f
    ensures Get(ApplyAll(o, s), f) == Get(o, f)
    decreases |s|
  {
    if s != [] {
      var s' := s[..|s| - 1];
      assert forall j :: 0 <= j < |s'| ==> s'[j] == s[j];
      ApplyAllFrame(o, s', f);
    }
  }

  /** The last setter of a field wins: once s[i] has set its field, later
      options that touch other fields only leave that value in place. */
  lemma {:induction false} LastWriterWins(o: Options, s: seq<Option>, i: nat)
    requires i < |s| && SingleField(s[i])
    requires forall j :: i < j < |s| ==> SingleField(s[j]) && FieldOf(s[j]) != FieldOf(s[i])
    ensures Get(ApplyAll(o, s), FieldOf(s[i])) == ValueOf(s[i])
  {
    var after := s[i + 1..];
    assert s == s[..i + 1] + after;
    ApplyAllAppend(o, s[..i + 1], after);
    assert s[..i + 1][..i] == s[..i];
    assert forall j :: 0 <= j < |after| ==> after[j] == s[i + 1 + j];
    ApplyAllFrame(ApplyAll(o, s[..i + 1]), after, FieldOf(s[i]));
  }

  /** Of two setters of the same field, the second one's value stays. */
  lemma SameFieldOverwrites(a: Option, b: Option, o: Options)
    requires SingleField(a) && SingleField(b) && FieldOf(a) == FieldOf(b)
    ensures Apply(b, Apply(a, o)) == Apply(b, o)
  {
    forall f ensures Get(Apply(b, Apply(a, o)), f) == Get(Apply(b, o), f) {
    }
    FieldsDetermine(Apply(b, Apply(a, o)), Apply(b, o));
  }

  /** Applying a setter twice is applying it once. */
  lemma ApplyIdempotent(a: Option, o: Options)
    ensures Apply(a, Apply(a, o)) == Apply(a, o)
  {
    if SingleField(a) {
      SameFieldOverwrites(a, a, o);
    }
  }

  /** Setters of different fields commute. */
  lemma DistinctFieldsCommute(a: Option, b: Option, o: Options)
    requires SingleField(a) && SingleField(b) && FieldOf(a) != FieldOf(b)
    ensures Apply(a, Apply(b, o)) == Apply(b, Apply(a, o))
  {
    forall f ensures Get(Apply(a, Apply(b, o)), f) == Get(Apply(b, Apply(a, o)), f) {
    }
    FieldsDetermine(Apply(a, Apply(b, o)), Apply(b, Apply(a, o)));
  }
}
