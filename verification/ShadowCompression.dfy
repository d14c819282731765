/** The shadow compressor: a second buffer takes every write first, to estimate
    whether the real one would outgrow the target. */
module ShadowCompression {
  import opened Bytes
  import opened Compression

  const SAFE_COMPRESSION_OVERHEAD: nat := 51
  const CLOSE_OVERHEAD_ZLIB: nat := 9

  datatype Config = Config(algo: Algo, compress: Compress, target: nat)

  datatype Shadowed = Shadowed(main: Eager, shadow: Eager, full: bool, bound: nat)

  const FRESH := Shadowed(EMPTY, EMPTY, false, SAFE_COMPRESSION_OVERHEAD)

  function Put(c: Config, e: Eager, data: bytes): Eager {
    EagerWrite(c.compress, e, data).0
  }

  /** What a write does, and what it answers. */
  function Written(c: Config, s: Shadowed, data: bytes): (Shadowed, Result<nat, CompressorError>) {
    if s.full then (s, Err(Full))
    else if s.shadow.closed then (s, Err(BrotliFailed))
    else
      var shadow := Put(c, s.shadow, data);
      if |data| <= c.target then (Shadowed(Put(c, s.main, data), shadow, false, |data|), Ok(|data|))
      else
        var estimate := |shadow.Ready()| + CLOSE_OVERHEAD_ZLIB;
        var full := estimate > c.target;
        if full && s.main.Ready() != [] then (s.(shadow := shadow, full := true), Err(Full))
        else (Shadowed(Put(c, s.main, data), shadow, full, estimate), Ok(|data|))
  }

  class ShadowCompressor {
    const target: nat
    const main: LazyCompressor
    const shadow: LazyCompressor
    var isFull: bool
    var bound: nat

    ghost predicate Valid()
      reads this, main, shadow
    {
      && main != shadow && main.Valid() && shadow.Valid()
      && main.algo == shadow.algo && main.compress == shadow.compress
      && !main.closed
    }

    ghost function Settings(): Config { Config(main.algo, main.compress, target) }

    ghost function View(): Shadowed
      reads this, main, shadow
    {
      Shadowed(main.View(), shadow.View(), isFull, bound)
    }

    constructor (config: Config)
      requires config.algo.Zlib? ==> Infallible(config.compress)
      ensures Valid() && View() == FRESH && Settings() == config
      ensures fresh(main) && fresh(shadow)
    {
      target := config.target;
      main := new LazyCompressor(config.algo, config.compress);
      shadow := new LazyCompressor(config.algo, config.compress);
      isFull, bound := false, SAFE_COMPRESSION_OVERHEAD;
    }

    method Write(data: bytes) returns (r: Result<nat, CompressorError>)
      requires Valid()
      modifies this, main, shadow
      ensures Valid() && (View(), r) == Written(Settings(), old(View()), data)
    {
      hide Infallible;
      if isFull {
        return Err(Full);
      }
      var probe := shadow.Write(data);
      if probe.Err? {
        return probe;
      }
      var newbound := |data|;
      if newbound > target {
        shadow.Flush();
        var estimated := shadow.Len();
        newbound := estimated + CLOSE_OVERHEAD_ZLIB;
        if newbound > target {
          isFull := true;
          var used := main.Len();
          if used > 0 {
            return Err(Full);
          }
        }
      }
      bound := newbound;
      r := main.Write(data);
    }

    method Len() returns (n: nat)
      requires Valid()
      modifies main
      ensures Valid() && View() == old(View()) && n == |View().main.Ready()|
    {
      n := main.Len();
    }

    method Read(room: nat) returns (r: Result<bytes, CompressorError>)
      requires Valid()
      modifies main
      ensures Valid() && unchanged(this) && unchanged(shadow)
      ensures (View().main, r) == EagerRead(main.algo, old(View().main), room)
    {
      r := main.Read(room);
    }

    method Flush()
      requires Valid()
      ensures Valid()
    {
      shadow.Flush();
      main.Flush();
    }

    /** Only the estimating buffer is closed. */
    method Close()
      requires Valid()
      modifies shadow
      ensures Valid() && unchanged(this) && unchanged(main)
      ensures View().shadow == old(View().shadow).(closed := main.algo.Brotli?)
    {
      shadow.Close();
    }

    method Reset()
      requires Valid()
      modifies this, main, shadow
      ensures Valid() && View() == FRESH && !isFull && bound == 51 && main.raw == shadow.raw == []
    {
      main.Reset();
      shadow.Reset();
      isFull := false;
      bound := SAFE_COMPRESSION_OVERHEAD;
    }

    method ChannelVersionByte() returns (v: Option<byte>)
      ensures v == VersionByte(main.algo)
    {
      v := if main.algo.Brotli? then Some(1) else None;
    }
  }

  function VersionByte(algo: Algo): Option<byte> { if algo.Brotli? then Some(1) else None }

  // ------------------------------------------------- runs of writes and resets

  /** A write, or a reset. */
  datatype Step = Append(data: bytes) | Restart

  /** The state after a run, and whether a write was refused since the last reset. */
  function After(c: Config, steps: seq<Step>): (Shadowed, bool)
    decreases |steps|
  {
    if steps == [] then (FRESH, false)
    else
      var (s, refused) := After(c, steps[..|steps| - 1]);
      match steps[|steps| - 1]
      case Restart => (FRESH, false)
      case Append(data) => var (t, r) := Written(c, s, data); (t, refused || r.Err?)
  }

  /** Nothing, or the compressed form of everything. */
  ghost predicate Settled(c: Config, e: Eager) {
    !e.closed && (e == EMPTY || e.out == c.compress(e.raw))
  }

  /** What every run keeps: while nothing was refused both buffers are the same
      and the channel is full only if the first write filled it; after a refusal
      the channel is full and the estimating buffer is ahead by the refused write. */
  ghost predicate Kept(c: Config, s: Shadowed, refused: bool) {
    && Settled(c, s.main) && Settled(c, s.shadow)
    && (!refused ==> s.shadow == s.main)
    && (refused ==> s.full && s.main.raw <= s.shadow.raw)
    && (s.full ==> |s.shadow.Ready()| + CLOSE_OVERHEAD_ZLIB > c.target)
  }

  lemma KeptByWrite(c: Config, s: Shadowed, refused: bool, data: bytes)
    requires Kept(c, s, refused)
    ensures var (t, r) := Written(c, s, data); Kept(c, t, refused || r.Err?)
  {
  }

  lemma {:induction false} KeptByRuns(c: Config, steps: seq<Step>)
    ensures var (s, refused) := After(c, steps); Kept(c, s, refused)
    decreases |steps|
  {
    if steps != [] {
      KeptByRuns(c, steps[..|steps| - 1]);
      var (s, refused) := After(c, steps[..|steps| - 1]);
      if steps[|steps| - 1].Append? {
        KeptByWrite(c, s, refused, steps[|steps| - 1].data);
      }
    }
  }

  /** In every run: a refusal leaves the real buffer alone and lasts until a
      reset; a full channel takes nothing more; and a write longer than the target
      that is taken either fits with room to close, or was the first one and
      filled the channel. */
  lemma WritesAreSafe(c: Config, steps: seq<Step>, data: bytes)
    requires NonEmptyOutput(c.compress)
    ensures var (s, refused) := After(c, steps);
      var (t, r) := Written(c, s, data);
      && (r.Err? ==> r.error == Full && t.main == s.main && t.full)
      && (s.full ==> r.Err? && t == s)
      && (r.Ok? ==> t.main.raw == s.main.raw + data == t.shadow.raw)
      && (r.Ok? ==> t.bound == if |data| <= c.target then |data| else |t.main.Ready()| + 9)
      && (r.Ok? && |data| > c.target ==>
           || (|t.main.Ready()| + 9 <= c.target && !t.full)
           || (s.main == EMPTY && t.full))
  {
    KeptByRuns(c, steps);
  }

  // ------------------------------------------------------ the target overrun

  /** Two writes, each within the target, together beyond it. */
  lemma TwoSmallWritesOverrun(algo: Algo, target: nat)
    requires target >= 1
    ensures var copy: Compress := s => Some(s + [0]);
      var c := Config(algo, copy, target);
      var (s, _) := After(c, [Append(Zeros(target)), Append(Zeros(target))]);
      !s.full && |s.main.Ready()| == 2 * target + 1
  {
    var copy: Compress := s => Some(s + [0]);
    var c, w := Config(algo, copy, target), Append(Zeros(target));
    assert [w, w][..1] == [w] && [w][..0] == [];
    assert After(c, []) == (FRESH, false);
    assert After(c, [w]) == (Written(c, FRESH, Zeros(target)).0, false);
  }
}
