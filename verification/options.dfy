/**
 * The dumper's configuration: its defaults, the functional options that
 * override them, and `NewDumper`, which applies the options in order.
 *
 * The numeric options only take effect for a non-negative argument; a
 * negative one is ignored and leaves the previous value (so a negative depth
 * never means "unbounded").
 */
module Options {

  const DefaultMaxDepth: int := 15
  const DefaultMaxItems: int := 100
  const DefaultMaxStringLen: int := 100000

  /** How many stack frames the call-site lookup inspects at most. */
  const DefaultMaxStackDepth: nat := 10

  /** The first stack frame the call-site lookup inspects. */
  const InitialCallerSkip: nat := 2

  /** Where the dump goes; a user-supplied writer is known only by an identity. */
  datatype Writer = Stdout | Custom(id: nat)

  /** The configuration fields of a `Dumper` (the caller lookup and colorizer aside). */
  datatype Dumper = Dumper(
    maxDepth: int,
    maxItems: int,
    maxStringLen: int,
    writer: Writer,
    skippedStackFrames: int)

  /** The four numeric settings. */
  datatype Setting = MaxDepth | MaxItems | MaxStringLen | SkipStackFrames

  /** A functional option, by what it was constructed from. */
  datatype Option =
    | WithMaxDepth(n: int)
    | WithMaxItems(n: int)
    | WithMaxStringLen(n: int)
    | WithWriter(w: Writer)
    | WithSkipStackFrames(n: int)

  function Get(d: Dumper, s: Setting): int
  {
    match s
    case MaxDepth => d.maxDepth
    case MaxItems => d.maxItems
    case MaxStringLen => d.maxStringLen
    case SkipStackFrames => d.skippedStackFrames
  }

  function Default(s: Setting): int
  {
    match s
    case MaxDepth => DefaultMaxDepth
    case MaxItems => DefaultMaxItems
    case MaxStringLen => DefaultMaxStringLen
    case SkipStackFrames => 0
  }

  /** The setting an option is about, if it is a numeric one. */
  predicate About(o: Option, s: Setting)
  {
    match s
    case MaxDepth => o.WithMaxDepth?
    case MaxItems => o.WithMaxItems?
    case MaxStringLen => o.WithMaxStringLen?
    case SkipStackFrames => o.WithSkipStackFrames?
  }

  /** The option overrides setting `s`: it is about `s` and its argument is not negative. */
  predicate Sets(o: Option, s: Setting)
  {
    About(o, s) && o.n >= 0
  }

  /** What the option's closure does to the dumper it is given. */
  function Apply(d: Dumper, o: Option): (r: Dumper)
    ensures forall s :: Get(r, s) == if Sets(o, s) then o.n else Get(d, s)
    ensures r.writer == if o.WithWriter? then o.w else d.writer
  {
    match o
    case WithMaxDepth(n) => if n >= 0 then d.(maxDepth := n) else d
    case WithMaxItems(n) => if n >= 0 then d.(maxItems := n) else d
    case WithMaxStringLen(n) => if n >= 0 then d.(maxStringLen := n) else d
    case WithWriter(w) => d.(writer := w)
    case WithSkipStackFrames(n) => if n >= 0 then d.(skippedStackFrames := n) else d
  }

  /** A numeric option with a negative argument changes nothing at all. */
  lemma NegativeIgnored(d: Dumper, o: Option)
    requires !o.WithWriter? && o.n < 0
    ensures Apply(d, o) == d
  {
  }

  /**
   * Reference meaning of a list of options for one setting: the argument of
   * the last option that sets it, or the default when none does.
   */
  function Chosen(opts: seq<Option>, s: Setting): int
  {
    if |opts| == 0 then Default(s)
    else if Sets(opts[|opts| - 1], s) then opts[|opts| - 1].n
    else Chosen(opts[..|opts| - 1], s)
  }

  /** The writer of the last WithWriter option, or standard output. */
  function ChosenWriter(opts: seq<Option>): Writer
  {
    if |opts| == 0 then Stdout
    else if opts[|opts| - 1].WithWriter? then opts[|opts| - 1].w
    else ChosenWriter(opts[..|opts| - 1])
  }

  /** No setting a list of options chooses is negative. */
  lemma {:induction false} ChosenNonNegative(opts: seq<Option>, s: Setting)
    ensures Chosen(opts, s) >= 0
    decreases |opts|
  {
    if |opts| > 0 && !Sets(opts[|opts| - 1], s) {
      ChosenNonNegative(opts[..|opts| - 1], s);
    }
  }

  /**
   * `NewDumper(opts...)`: the defaults, then every option applied in order.
   * Whatever the options, no numeric setting ends up negative.
   */
  method NewDumper(opts: seq<Option>) returns (d: Dumper)
    ensures forall s :: Get(d, s) == Chosen(opts, s)
    ensures d.writer == ChosenWriter(opts)
    ensures d.maxDepth >= 0 && d.maxItems >= 0 && d.maxStringLen >= 0 && d.skippedStackFrames >= 0
  {
    d := Dumper(DefaultMaxDepth, DefaultMaxItems, DefaultMaxStringLen, Stdout, 0);
    for i := 0 to |opts|
      invariant forall s :: Get(d, s) == Chosen(opts[..i], s)
      invariant d.writer == ChosenWriter(opts[..i])
    {
      assert opts[..i + 1][..i] == opts[..i];
      d := Apply(d, opts[i]);
    }
    assert opts[..|opts|] == opts;
    ChosenNonNegative(opts, MaxDepth);
    ChosenNonNegative(opts, MaxItems);
    ChosenNonNegative(opts, MaxStringLen);
    ChosenNonNegative(opts, SkipStackFrames);
    assert Get(d, MaxDepth) >= 0 && Get(d, MaxItems) >= 0;
    assert Get(d, MaxStringLen) >= 0 && Get(d, SkipStackFrames) >= 0;
  }

  /** With no options, the documented defaults 15, 100, 100000, 0 and standard output. */
  lemma NoOptionDefaults()
    ensures Chosen([], MaxDepth) == 15 && Chosen([], MaxItems) == 100
    ensures Chosen([], MaxStringLen) == 100000 && Chosen([], SkipStackFrames) == 0
    ensures ChosenWriter([]) == Stdout
  {
  }

  /** `WithMaxDepth(-1)` keeps the default depth (it does not lift the limit). */
  lemma NegativeDepthKeepsDefault(opts: seq<Option>, n: int)
    requires n < 0
    ensures Chosen(opts + [WithMaxDepth(n)], MaxDepth) == Chosen(opts, MaxDepth)
  {
    assert (opts + [WithMaxDepth(n)])[..|opts|] == opts;
  }
}
