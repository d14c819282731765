/** The lazily compressing buffers. Compression itself is a function handed in:
    `None` is a failed brotli run; zlib never fails. */
module Compression {
  import opened Bytes

  datatype Algo = Brotli | Zlib

  datatype CompressorError = Full | BrotliFailed

  type Compress = bytes -> Option<bytes>

  ghost predicate Infallible(compress: Compress) { forall s :: compress(s).Some? }

  ghost predicate NonEmptyOutput(compress: Compress) {
    forall s :: compress(s).Some? && compress(s).value != []
  }

  // ---------------------------------------------------- the eager reference

  /** A compressor that recompresses everything it was given on every write:
      `out` is what is left to read, or `None` if compression failed. */
  datatype Eager = Eager(raw: bytes, out: Option<bytes>, closed: bool) {
    function Ready(): bytes { if out.Some? then out.value else [] }
  }

  const EMPTY := Eager([], Some([]), false)

  datatype Call =
    | Write(data: bytes)
    | Read(room: nat)
    | Len
    | GetCompressed
    | Flush
    | Close
    | Reset

  datatype Answer =
    | Wrote(written: Result<nat, CompressorError>)
    | Got(read: Result<bytes, CompressorError>)
    | Length(length: nat)
    | Contents(compressed: bytes)
    | Done

  predicate IsQuery(call: Call) { call.Len? || call.GetCompressed? || call.Flush? }

  function EagerWrite(compress: Compress, e: Eager, data: bytes): (Eager, Result<nat, CompressorError>) {
    if e.closed then (e, Err(BrotliFailed))
    else (Eager(e.raw + data, compress(e.raw + data), false), Ok(|data|))
  }

  /** Reading drains the brotli buffer and leaves the zlib one alone. */
  function EagerRead(algo: Algo, e: Eager, room: nat): (Eager, Result<bytes, CompressorError>) {
    match e.out
    case None => (e, Err(BrotliFailed))
    case Some(out) =>
      var n := Min(room, |out|);
      (e.(out := Some(if algo.Brotli? then out[n..] else out)), Ok(out[..n]))
  }

  function Eagerly(algo: Algo, compress: Compress, e: Eager, call: Call): (Eager, Answer) {
    match call
    case Write(data) => var (e', r) := EagerWrite(compress, e, data); (e', Wrote(r))
    case Read(room) => var (e', r) := EagerRead(algo, e, room); (e', Got(r))
    case Len => (e, Length(|e.Ready()|))
    case GetCompressed => (e, Contents(e.Ready()))
    case Flush => (e, Done)
    case Close => (e.(closed := algo.Brotli?), Done)
    case Reset => (EMPTY, Done)
  }

  function EagerRun(algo: Algo, compress: Compress, e: Eager, calls: seq<Call>): (r: (Eager, seq<Answer>))
    ensures |r.1| == |calls|
    decreases |calls|
  {
    if calls == [] then (e, [])
    else
      var (e1, answers) := EagerRun(algo, compress, e, calls[..|calls| - 1]);
      var (e2, answer) := Eagerly(algo, compress, e1, calls[|calls| - 1]);
      (e2, answers + [answer])
  }

  // ------------------------------------------------------ the lazy compressor

  /** Brotli and zlib buffers behind one dispatch: raw bytes accumulate, and the
      compressed form is made when it is first asked for. */
  class LazyCompressor {
    const algo: Algo
    const compress: Compress
    var raw: bytes
    var compressed: bytes
    var dirty: bool
    var closed: bool

    ghost predicate Valid()
      reads this
    {
      && (dirty ==> compressed == [])
      && (algo.Zlib? ==> !closed && Infallible(compress))
    }

    /** What an eager compressor would hold at this point. */
    ghost function View(): Eager
      reads this
    {
      Eager(raw, if dirty then compress(raw) else Some(compressed), closed)
    }

    constructor (algo: Algo, compress: Compress)
      requires algo.Zlib? ==> Infallible(compress)
      ensures Valid() && View() == EMPTY
      ensures this.algo == algo && this.compress == compress
    {
      this.algo, this.compress := algo, compress;
      raw, compressed, dirty, closed := [], [], false, false;
    }

    method EnsureCompressed() returns (ok: bool)
      requires Valid()
      modifies this
      ensures Valid() && View() == old(View())
      ensures ok == View().out.Some?
      ensures !ok ==> compressed == []
      ensures ok ==> !dirty
    {
      if dirty {
        var c := compress(raw);
        if c.None? {
          return false;
        }
        compressed, dirty := c.value, false;
      }
      ok := true;
    }

    method Write(data: bytes) returns (r: Result<nat, CompressorError>)
      requires Valid()
      modifies this
      ensures Valid() && (View(), r) == EagerWrite(compress, old(View()), data)
    {
      if algo.Brotli? && closed {
        return Err(BrotliFailed);
      }
      raw := raw + data;
      compressed := [];
      dirty := true;
      r := Ok(|data|);
    }

    method Read(room: nat) returns (r: Result<bytes, CompressorError>)
      requires Valid()
      modifies this
      ensures Valid() && (View(), r) == EagerRead(algo, old(View()), room)
    {
      var ok := EnsureCompressed();
      if !ok {
        return Err(BrotliFailed);
      }
      var n := Min(room, |compressed|);
      r := Ok(compressed[..n]);
      if algo.Brotli? {
        compressed := compressed[n..];
      }
    }

    /** Compression errors are swallowed here and surface at the next read. */
    method Len() returns (n: nat)
      requires Valid()
      modifies this
      ensures Valid() && View() == old(View()) && n == |View().Ready()|
    {
      var _ := EnsureCompressed();
      n := |compressed|;
    }

    method GetCompressed() returns (c: bytes)
      requires Valid()
      modifies this
      ensures Valid() && View() == old(View()) && c == View().Ready()
    {
      var _ := EnsureCompressed();
      c := compressed;
    }

    method Flush()
      requires Valid()
      ensures Valid()
    {
    }

    method Close()
      requires Valid()
      modifies this
      ensures Valid() && View() == old(View()).(closed := algo.Brotli?)
    {
      if algo.Brotli? {
        closed := true;
      }
    }

    method Reset()
      requires Valid()
      modifies this
      ensures Valid() && View() == EMPTY
    {
      closed := false;
      raw := [];
      compressed := [];
      dirty := false;
    }

    method Perform(call: Call) returns (answer: Answer)
      requires Valid()
      modifies this
      ensures Valid() && (View(), answer) == Eagerly(algo, compress, old(View()), call)
    {
      match call
      case Write(data) => var r := Write(data); answer := Wrote(r);
      case Read(room) => var r := Read(room); answer := Got(r);
      case Len => var n := Len(); answer := Length(n);
      case GetCompressed => var c := GetCompressed(); answer := Contents(c);
      case Flush => Flush(); answer := Done;
      case Close => Close(); answer := Done;
      case Reset => Reset(); answer := Done;
    }

    /** Whatever the calls, the cache answers as the eager compressor does. */
    method PerformAll(calls: seq<Call>) returns (answers: seq<Answer>)
      requires Valid()
      modifies this
      ensures Valid() && (View(), answers) == EagerRun(algo, compress, old(View()), calls)
    {
      answers := [];
      var i := 0;
      while i < |calls|
        invariant 0 <= i <= |calls|
        invariant Valid() && (View(), answers) == EagerRun(algo, compress, old(View()), calls[..i])
      {
        var answer := Perform(calls[i]);
        assert calls[..i + 1][..i] == calls[..i];
        answers := answers + [answer];
        i := i + 1;
      }
      assert calls[..i] == calls;
    }
  }

  // ------------------------------------------------------------ run properties

  lemma {:induction false} RunAppend(algo: Algo, compress: Compress, e: Eager, a: seq<Call>, b: seq<Call>)
    ensures var (e1, first) := EagerRun(algo, compress, e, a);
      var (e2, second) := EagerRun(algo, compress, e1, b);
      EagerRun(algo, compress, e, a + b) == (e2, first + second)
    decreases |b|
  {
    if b == [] {
      assert a + b == a;
      assert EagerRun(algo, compress, e, a).1 + [] == EagerRun(algo, compress, e, a).1;
    } else {
      var front := b[..|b| - 1];
      RunAppend(algo, compress, e, a, front);
      assert (a + b)[..|a + b| - 1] == a + front;
      Regroup(EagerRun(algo, compress, e, a).1,
              EagerRun(algo, compress, EagerRun(algo, compress, e, a).0, front).1,
              Eagerly(algo, compress, EagerRun(algo, compress, e, a + front).0, b[|b| - 1]).1);
    }
  }

  lemma Regroup(a: seq<Answer>, b: seq<Answer>, x: Answer)
    ensures a + b + [x] == a + (b + [x])
  {
  }

  lemma OneCall(algo: Algo, compress: Compress, e: Eager, call: Call)
    ensures var (e', a) := Eagerly(algo, compress, e, call);
      EagerRun(algo, compress, e, [call]) == (e', [a])
  {
    hide Eagerly;
    var a := Eagerly(algo, compress, e, call).1;
    assert [call][..0] == [] && [] + [a] == [a];
    assert EagerRun(algo, compress, e, []) == (e, []);
  }

  /** Asking for the length or the contents, anywhere in a run, changes no later
      answer and no earlier one. */
  lemma QueriesDoNotDisturb(algo: Algo, compress: Compress, e: Eager, before: seq<Call>, query: Call, after: seq<Call>)
    requires IsQuery(query)
    ensures var (end, answers) := EagerRun(algo, compress, e, before + after);
      exists a :: EagerRun(algo, compress, e, before + [query] + after)
               == (end, answers[..|before|] + [a] + answers[|before|..])
  {
    var (e1, first) := EagerRun(algo, compress, e, before);
    var (e2, second) := EagerRun(algo, compress, e1, after);
    var a := Eagerly(algo, compress, e1, query).1;
    assert Eagerly(algo, compress, e1, query).0 == e1;
    OneCall(algo, compress, e1, query);
    hide EagerRun, Eagerly;
    RunAppend(algo, compress, e, before, after);
    ThreeRuns(algo, compress, e, before, query, after, first, a, e1, e2, second);
    Inserted(first, second, a);
    assert EagerRun(algo, compress, e, before + after) == (e2, first + second);
  }

  lemma ThreeRuns(algo: Algo, compress: Compress, e: Eager, before: seq<Call>, query: Call, after: seq<Call>,
                  first: seq<Answer>, a: Answer, e1: Eager, e2: Eager, second: seq<Answer>)
    requires EagerRun(algo, compress, e, before) == (e1, first)
    requires EagerRun(algo, compress, e1, [query]) == (e1, [a])
    requires EagerRun(algo, compress, e1, after) == (e2, second)
    ensures EagerRun(algo, compress, e, before + [query] + after) == (e2, first + [a] + second)
  {
    hide EagerRun;
    RunAppend(algo, compress, e, before, [query]);
    RunAppend(algo, compress, e, before + [query], after);
  }

  lemma Inserted(first: seq<Answer>, second: seq<Answer>, a: Answer)
    ensures (first + second)[..|first|] + [a] + (first + second)[|first|..] == first + [a] + second
  {
    assert (first + second)[..|first|] == first && (first + second)[|first|..] == second;
  }

  /** Read some, write, and read the rest, on a brotli buffer. */
  function ReadWriteRead(room: nat, data: bytes, rest: nat): seq<Call> {
    [Read(room)] + [Write(data)] + [Read(rest)]
  }

  /** The bytes a reader got, in order. */
  function Collected(answers: seq<Answer>): bytes {
    if answers == [] then []
    else
      var last := answers[|answers| - 1];
      Collected(answers[..|answers| - 1]) + if last.Got? && last.read.Ok? then last.read.value else []
  }

  /** What a reader collects across a write is the new compressed stream exactly when
      nothing was read before the write; and if more input only lengthens the output,
      the bytes read before come out again at the front of those read after. */
  lemma WriteRestarts(compress: Compress, e: Eager, room: nat, data: bytes)
    requires e.out.Some? && !e.closed && compress(e.raw + data).Some?
    ensures var whole := compress(e.raw + data).value;
      var (end, answers) := EagerRun(Brotli, compress, e, ReadWriteRead(room, data, |whole|));
      var first := e.out.value[..Min(room, |e.out.value|)];
      && answers == [Got(Ok(first)), Wrote(Ok(|data|)), Got(Ok(whole))] && end.out == Some([])
      && (Collected(answers) == whole <==> room == 0 || e.out.value == [])
      && (compress(e.raw) == e.out && e.out.value <= whole ==> answers[0].read.value <= answers[2].read.value)
  {
    var whole, first := compress(e.raw + data).value, e.out.value[..Min(room, |e.out.value|)];
    var e1, e2 := Eagerly(Brotli, compress, e, Read(room)).0, Eager(e.raw + data, Some(whole), false);
    assert Eagerly(Brotli, compress, e, Read(room)).1 == Got(Ok(first));
    assert Eagerly(Brotli, compress, e1, Write(data)) == (e2, Wrote(Ok(|data|)));
    assert whole[..|whole|] == whole && whole[|whole|..] == [];
    assert Eagerly(Brotli, compress, e2, Read(|whole|)) == (e2.(out := Some([])), Got(Ok(whole)));
    hide EagerRun, Eagerly, Collected;
    ThreeCalls(Brotli, compress, e, Read(room), Write(data), Read(|whole|));
    CollectedOfThree(first, Wrote(Ok(|data|)), whole);
    assert first + whole == whole ==> |first| == 0;
    assert first == [] ==> first + whole == whole;
  }

  lemma ThreeCalls(algo: Algo, compress: Compress, e: Eager, x: Call, y: Call, z: Call)
    ensures var (e1, a) := Eagerly(algo, compress, e, x);
      var (e2, b) := Eagerly(algo, compress, e1, y);
      var (e3, c) := Eagerly(algo, compress, e2, z);
      EagerRun(algo, compress, e, [x] + [y] + [z]) == (e3, [a, b, c])
  {
    hide EagerRun, Eagerly;
    var (e1, a) := Eagerly(algo, compress, e, x);
    var (e2, b) := Eagerly(algo, compress, e1, y);
    OneCall(algo, compress, e, x);
    OneCall(algo, compress, e1, y);
    OneCall(algo, compress, e2, z);
    var c := Eagerly(algo, compress, e2, z).1;
    assert [a] + [b] + [c] == [a, b, c];
    RunAppend(algo, compress, e, [x], [y]);
    RunAppend(algo, compress, e, [x] + [y], [z]);
  }

  lemma CollectedOfThree(first: bytes, wrote: Answer, last: bytes)
    requires wrote.Wrote?
    ensures Collected([Got(Ok(first)), wrote, Got(Ok(last))]) == first + last
  {
    var a, b := Got(Ok(first)), Got(Ok(last));
    assert [a, wrote, b][..2] == [a, wrote] && [a, wrote][..1] == [a] && [a][..0] == [];
    assert Collected([]) == [];
    assert Collected([a]) == first;
    assert Collected([a, wrote]) == first;
  }

  // ------------------------------------------------- the reference, read off the calls

  /** The bytes written since the last reset. */
  function WrittenBy(calls: seq<Call>): bytes {
    if calls == [] then []
    else
      var before := WrittenBy(calls[..|calls| - 1]);
      match calls[|calls| - 1] case Write(data) => before + data case Reset => [] case _ => before
  }

  /** Whether anything, be it empty, was written since the last reset. */
  predicate HasWritten(calls: seq<Call>) {
    calls != [] &&
    match calls[|calls| - 1] case Write(_) => true case Reset => false case _ => HasWritten(calls[..|calls| - 1])
  }

  /** The compressed form of those bytes, or nothing before the first write. */
  function Whole(compress: Compress, calls: seq<Call>): bytes {
    if HasWritten(calls) && compress(WrittenBy(calls)).Some? then compress(WrittenBy(calls)).value else []
  }

  /** How much of it was read since the last write. */
  function Taken(compress: Compress, calls: seq<Call>): (n: nat)
    ensures n <= |Whole(compress, calls)|
  {
    if calls == [] then 0
    else
      match calls[|calls| - 1]
      case Write(_) => 0
      case Reset => 0
      case Read(room) => Min(Taken(compress, calls[..|calls| - 1]) + room, |Whole(compress, calls)|)
      case _ => Taken(compress, calls[..|calls| - 1])
  }

  /** What is ready: for brotli what was not read since the last write, for zlib all. */
  function Rest(algo: Algo, compress: Compress, calls: seq<Call>): bytes {
    if algo.Brotli? then Whole(compress, calls)[Taken(compress, calls)..] else Whole(compress, calls)
  }

  lemma {:induction false} RunMeans(algo: Algo, compress: Compress, calls: seq<Call>)
    requires Infallible(compress) && Close !in calls
    ensures EagerRun(algo, compress, EMPTY, calls).0 == Eager(WrittenBy(calls), Some(Rest(algo, compress, calls)), false)
    decreases |calls|
  {
    if calls == [] {
      assert Whole(compress, []) == [];
    } else {
      var front, call := calls[..|calls| - 1], calls[|calls| - 1];
      assert calls == front + [call];
      RunMeans(algo, compress, front);
      assert Close !in calls && call in calls;
      MeansStep(algo, compress, front, call);
      hide Rest, WrittenBy, Eagerly;
    }
  }

  lemma MeansStep(algo: Algo, compress: Compress, front: seq<Call>, call: Call)
    requires Infallible(compress) && call != Close
    ensures var e := Eager(WrittenBy(front), Some(Rest(algo, compress, front)), false);
      Eagerly(algo, compress, e, call).0
      == Eager(WrittenBy(front + [call]), Some(Rest(algo, compress, front + [call])), false)
  {
    WrittenStep(front, call);
    RestStep(algo, compress, front, call);
    hide WrittenBy, Rest, Infallible, Eagerly;
    var raw, rest := WrittenBy(front), Rest(algo, compress, front);
    EagerStep(algo, compress, raw, rest, call);
  }

  lemma EagerStep(algo: Algo, compress: Compress, raw: bytes, rest: bytes, call: Call)
    ensures var e := Eager(raw, Some(rest), false);
      var next := Eagerly(algo, compress, e, call).0;
      match call
      case Write(data) => next == Eager(raw + data, compress(raw + data), false)
      case Read(room) => next == Eager(raw, Some(if algo.Brotli? then rest[Min(room, |rest|)..] else rest), false)
      case Reset => next == Eager([], Some([]), false)
      case Close => true
      case _ => next == e
  {
  }

  /** A read of brotli output takes bytes off the front; a write starts the output again. */
  lemma RestStep(algo: Algo, compress: Compress, front: seq<Call>, call: Call)
    requires Infallible(compress)
    ensures var rest, rest' := Rest(algo, compress, front), Rest(algo, compress, front + [call]);
      match call
      case Write(data) => compress(WrittenBy(front) + data) == Some(rest')
      case Read(room) => rest' == if algo.Brotli? then rest[Min(room, |rest|)..] else rest
      case Reset => rest' == []
      case _ => rest' == rest
  {
    WholeStep(compress, front, call);
    TakenStep(compress, front, call);
    var whole, t := Whole(compress, front), Taken(compress, front);
    var whole', t' := Whole(compress, front + [call]), Taken(compress, front + [call]);
    assert Rest(algo, compress, front) == if algo.Brotli? then whole[t..] else whole;
    assert Rest(algo, compress, front + [call]) == if algo.Brotli? then whole'[t'..] else whole';
    hide WrittenBy, HasWritten, Taken, Whole, Infallible, Rest;
    if call.Read? {
      TakeMore(whole, t, call.room);
    } else if call.Write? {
      assert whole'[0..] == whole';
    }
  }

  lemma WholeStep(compress: Compress, front: seq<Call>, call: Call)
    requires Infallible(compress)
    ensures call.Write? ==> compress(WrittenBy(front) + call.data) == Some(Whole(compress, front + [call]))
    ensures call.Reset? ==> Whole(compress, front + [call]) == []
    ensures !call.Write? && !call.Reset? ==> Whole(compress, front + [call]) == Whole(compress, front)
  {
    WrittenStep(front, call);
    hide WrittenBy, HasWritten;
  }

  lemma WrittenStep(front: seq<Call>, call: Call)
    ensures WrittenBy(front + [call])
         == if call.Write? then WrittenBy(front) + call.data else if call.Reset? then [] else WrittenBy(front)
    ensures HasWritten(front + [call]) <==> call.Write? || (!call.Reset? && HasWritten(front))
  {
    assert (front + [call])[..|front|] == front;
  }

  lemma TakenStep(compress: Compress, front: seq<Call>, call: Call)
    ensures Taken(compress, front + [call])
         == if call.Write? || call.Reset? then 0
            else if call.Read? then Min(Taken(compress, front) + call.room, |Whole(compress, front + [call])|)
            else Taken(compress, front)
  {
    assert (front + [call])[..|front|] == front;
    hide Whole;
  }

  lemma TakeMore(whole: bytes, t: nat, room: nat)
    requires t <= |whole|
    ensures whole[t..][Min(room, |whole| - t)..] == whole[Min(t + room, |whole|)..]
  {
  }

  /** In every run without a close, each call answers from the calls before it: a read
      gets the first bytes not yet read, a query sees what is left, a write succeeds. */
  lemma AnswerMeans(algo: Algo, compress: Compress, calls: seq<Call>, call: Call)
    requires Infallible(compress) && Close !in calls
    ensures var answer := EagerRun(algo, compress, EMPTY, calls + [call]).1[|calls|];
      var rest := Rest(algo, compress, calls);
      match call
      case Write(data) => answer == Wrote(Ok(|data|))
      case Read(room) => answer == Got(Ok(rest[..Min(room, |rest|)]))
      case Len => answer == Length(|rest|)
      case GetCompressed => answer == Contents(rest)
      case _ => answer == Done
  {
    assert (calls + [call])[..|calls|] == calls;
    RunMeans(algo, compress, calls);
    hide Rest;
  }

  /** A closed brotli buffer takes no more writes; a zlib one does not notice. */
  lemma AfterClose(compress: Compress, e: Eager, data: bytes)
    requires !e.closed
    ensures var (b, brotli) := EagerRun(Brotli, compress, e, [Close] + [Write(data)]);
      brotli[1] == Wrote(Err(BrotliFailed)) && b.raw == e.raw && b.out == e.out
    ensures var (z, zlib) := EagerRun(Zlib, compress, e, [Close] + [Write(data)]);
      zlib[1] == Wrote(Ok(|data|)) && z.raw == e.raw + data && z.out == compress(e.raw + data)
  {
    OneCall(Brotli, compress, e, Close);
    OneCall(Brotli, compress, e.(closed := true), Write(data));
    OneCall(Zlib, compress, e, Close);
    OneCall(Zlib, compress, e, Write(data));
    hide EagerRun;
    RunAppend(Brotli, compress, e, [Close], [Write(data)]);
    RunAppend(Zlib, compress, e, [Close], [Write(data)]);
  }
}
