/** The size guarantee of the shadow compressor: after which histories of writes does
    an accepted write leave no more than the target, whatever the compressor? */
module ShadowGuarantee {
  import opened Bytes
  import opened Compression
  import opened ShadowCompression

  /** A compressor that loses nothing: different inputs have different outputs, none of
      them empty. */
  ghost predicate Lossless(compress: Compress) {
    && NonEmptyOutput(compress)
    && forall s, t :: compress(s) == compress(t) ==> s == t
  }

  // ------------------------------------------------------------ the write history

  /** The writes since the last reset, refused ones included. */
  function WritesOf(steps: seq<Step>): seq<bytes> {
    if steps == [] then []
    else
      match steps[|steps| - 1]
      case Restart => []
      case Append(data) => WritesOf(steps[..|steps| - 1]) + [data]
  }

  function Joined(ws: seq<bytes>): bytes {
    if ws == [] then [] else Joined(ws[..|ws| - 1]) + ws[|ws| - 1]
  }

  /** The contents whose compressed size is looked at: those after a write that alone
      exceeds the target. */
  function Estimated(target: nat, ws: seq<bytes>): set<bytes> {
    if ws == [] then {}
    else Estimated(target, ws[..|ws| - 1]) + if |ws[|ws| - 1]| > target then {Joined(ws)} else {}
  }

  ghost predicate AllSmall(c: Config, contents: set<bytes>) {
    forall p :: p in contents ==> c.compress(p).Some? && |c.compress(p).value| + 9 <= c.target
  }

  /** Both buffers hold these writes, and nothing else. */
  ghost predicate HoldsAll(c: Config, s: Shadowed, ws: seq<bytes>) {
    && s.main == s.shadow && s.main.raw == Joined(ws)
    && (if ws == [] then s.main == EMPTY else !s.main.closed && s.main.out == c.compress(Joined(ws)))
  }

  lemma WriteStep(c: Config, s: Shadowed, ws: seq<bytes>, data: bytes)
    requires NonEmptyOutput(c.compress) && (!s.full ==> HoldsAll(c, s, ws))
    requires s.full <==> !AllSmall(c, Estimated(c.target, ws))
    ensures var t := Written(c, s, data).0;
      && (!t.full ==> HoldsAll(c, t, ws + [data]))
      && (t.full <==> !AllSmall(c, Estimated(c.target, ws + [data])))
  {
    assert (ws + [data])[..|ws|] == ws;
    var before, after := Estimated(c.target, ws), Estimated(c.target, ws + [data]);
    assert after == before + if |data| > c.target then {Joined(ws + [data])} else {};
    assert Joined(ws + [data]) == Joined(ws) + data;
    hide Estimated, Joined;
  }

  /** The channel is full exactly when one of the estimates was too large; otherwise
      both buffers hold every write since the last reset. */
  lemma {:induction false} FullExactly(c: Config, steps: seq<Step>)
    requires NonEmptyOutput(c.compress)
    ensures var s, ws := After(c, steps).0, WritesOf(steps);
      && (s.full <==> !AllSmall(c, Estimated(c.target, ws)))
      && (!s.full ==> HoldsAll(c, s, ws))
    decreases |steps|
  {
    if steps != [] {
      var front := steps[..|steps| - 1];
      FullExactly(c, front);
      if steps[|steps| - 1].Append? {
        WriteStep(c, After(c, front).0, WritesOf(front), steps[|steps| - 1].data);
      }
    }
  }

  // ------------------------------------------------------- one more write, one compressor

  /** If the next write is taken, what is then ready fits the target. */
  ghost predicate Within(c: Config, steps: seq<Step>, data: bytes) {
    var (t, r) := Written(c, After(c, steps).0, data);
    r.Ok? ==> |t.main.Ready()| <= c.target
  }

  /** For a given compressor: the write is refused, or checked, or lucky. */
  lemma WithinExactly(c: Config, steps: seq<Step>, data: bytes)
    requires NonEmptyOutput(c.compress)
    ensures var ws := WritesOf(steps);
      Within(c, steps, data) <==>
      || !AllSmall(c, Estimated(c.target, ws))
      || (ws != [] && |data| > c.target)
      || |c.compress(Joined(ws) + data).value| <= c.target
  {
    FullExactly(c, steps);
    hide After, WritesOf, Estimated, Joined;
    var s := After(c, steps).0;
  }

  // -------------------------------------------------------------- counting byte strings

  /** The `n`th byte string, shorter ones first, from the empty one. */
  function Nth(n: nat): bytes {
    if n == 0 then [] else Nth((n - 1) / 256) + [(n - 1) % 256]
  }

  function Rank(s: bytes): nat {
    if s == [] then 0 else 256 * Rank(s[..|s| - 1]) + s[|s| - 1] + 1
  }

  /** How many byte strings there are of length 1 to `m`. */
  function Strings(m: nat): nat {
    if m == 0 then 0 else 256 * Strings(m - 1) + 256
  }

  lemma {:induction false} RankOfNth(n: nat)
    ensures Rank(Nth(n)) == n
  {
    if n > 0 {
      RankOfNth((n - 1) / 256);
      assert Nth(n)[..|Nth(n)| - 1] == Nth((n - 1) / 256);
    }
  }

  lemma {:induction false} NthOfRank(s: bytes)
    ensures Nth(Rank(s)) == s
  {
    if s != [] {
      NthOfRank(s[..|s| - 1]);
      assert s == s[..|s| - 1] + [s[|s| - 1]];
    }
  }

  lemma {:induction false} RankByLength(s: bytes, m: nat)
    ensures |s| <= m <==> Rank(s) <= Strings(m)
  {
    if s != [] && m > 0 {
      RankByLength(s[..|s| - 1], m - 1);
    }
  }

  /** No more contents than outputs. */
  lemma {:induction false} Pigeonhole(compress: Compress, contents: set<bytes>, n: nat)
    requires Lossless(compress)
    requires forall p :: p in contents ==> Rank(compress(p).value) <= n
    ensures |contents| <= n
  {
    if n == 0 {
      forall p ensures p !in contents {
        NthOfRank(compress(p).value);
      }
      assert contents == {};
    } else if p :| p in contents && Rank(compress(p).value) == n {
      forall q | q in contents - {p}
        ensures Rank(compress(q).value) <= n - 1
      {
        NthOfRank(compress(p).value);
        NthOfRank(compress(q).value);
      }
      Pigeonhole(compress, contents - {p}, n - 1);
    } else {
      Pigeonhole(compress, contents, n - 1);
    }
  }

  // ---------------------------------------------------------- a compressor that overruns

  /** Short outputs for the listed contents, over-long ones for all others. */
  function Coded(list: seq<bytes>, target: nat, s: bytes): Option<bytes> {
    Some(if s in list then Nth(IndexOf(list, s) + 1) else Zeros(target + 1) + s)
  }

  function IndexOf(list: seq<bytes>, s: bytes): (i: nat)
    requires s in list
    ensures i < |list| && list[i] == s
  {
    if list[|list| - 1] == s then |list| - 1 else IndexOf(list[..|list| - 1], s)
  }

  lemma {:induction false} Listing(contents: set<bytes>) returns (list: seq<bytes>)
    ensures |list| == |contents| && forall p :: p in list <==> p in contents
    decreases |contents|
  {
    list := [];
    if p :| p in contents {
      list := Listing(contents - {p});
      list := list + [p];
    }
  }

  lemma CodedInjective(list: seq<bytes>, target: nat, m: nat, s: bytes, t: bytes)
    requires |list| <= Strings(m) && m <= target && Coded(list, target, s) == Coded(list, target, t)
    ensures s == t
  {
    CodedLength(list, target, m, s);
    CodedLength(list, target, m, t);
    if s in list && t in list {
      RankOfNth(IndexOf(list, s) + 1);
      RankOfNth(IndexOf(list, t) + 1);
    } else if s !in list && t !in list {
      assert (Zeros(target + 1) + s)[target + 1..] == s;
      assert (Zeros(target + 1) + t)[target + 1..] == t;
    }
  }

  lemma CodedLength(list: seq<bytes>, target: nat, m: nat, s: bytes)
    requires |list| <= Strings(m) && m <= target
    ensures var out := Coded(list, target, s).value;
      out != [] && (if s in list then |out| <= m else |out| > target)
  {
    if s in list {
      var n := IndexOf(list, s) + 1;
      RankOfNth(n);
      RankByLength(Nth(n), m);
    }
  }

  lemma Overrunning(list: seq<bytes>, target: nat, m: nat) returns (compress: Compress)
    requires |list| <= Strings(m) && m <= target
    ensures Lossless(compress)
    ensures forall s :: if s in list then |compress(s).value| <= m else |compress(s).value| > target
  {
    compress := s => Coded(list, target, s);
    forall s
      ensures compress(s).Some? && compress(s).value != []
      ensures if s in list then |compress(s).value| <= m else |compress(s).value| > target
    {
      CodedLength(list, target, m, s);
    }
    forall s, t | compress(s) == compress(t)
      ensures s == t
    {
      CodedInjective(list, target, m, s, t);
    }
  }

  // ---------------------------------------------------------------------- the theorem

  ghost predicate AlwaysWithin(algo: Algo, target: nat, steps: seq<Step>, data: bytes) {
    forall compress: Compress :: Lossless(compress) ==> Within(Config(algo, compress, target), steps, data)
  }

  /** How many contents can pass the estimate: outputs of at most the target less the
      closing overhead. */
  function Room(target: nat): nat {
    if target < 9 then 0 else Strings(target - 9)
  }

  /** Some estimate was too large, or this one was already made. */
  ghost predicate Covered(target: nat, ws: seq<bytes>, data: bytes) {
    || |data| > target
    || |Estimated(target, ws)| > Room(target)
    || Joined(ws) + data in Estimated(target, ws)
  }

  lemma RoomBounds(c: Config, contents: set<bytes>)
    requires Lossless(c.compress) && AllSmall(c, contents)
    ensures |contents| <= Room(c.target)
  {
    if c.target < 9 {
      assert forall p :: p in contents ==> c.compress(p).value != [];
      assert contents == {};
    } else {
      forall p | p in contents
        ensures Rank(c.compress(p).value) <= Strings(c.target - 9)
      {
        RankByLength(c.compress(p).value, c.target - 9);
      }
      Pigeonhole(c.compress, contents, Strings(c.target - 9));
    }
  }

  lemma CoveredIsWithin(c: Config, steps: seq<Step>, data: bytes)
    requires Lossless(c.compress) && WritesOf(steps) != [] && Covered(c.target, WritesOf(steps), data)
    ensures Within(c, steps, data)
  {
    WithinExactly(c, steps, data);
    hide Within, Estimated, WritesOf, Joined, Room;
    var ws := WritesOf(steps);
    if AllSmall(c, Estimated(c.target, ws)) {
      RoomBounds(c, Estimated(c.target, ws));
    }
  }

  lemma UncoveredOverruns(algo: Algo, target: nat, steps: seq<Step>, data: bytes) returns (compress: Compress)
    requires WritesOf(steps) == [] || !Covered(target, WritesOf(steps), data)
    ensures Lossless(compress) && !Within(Config(algo, compress, target), steps, data)
  {
    var ws := WritesOf(steps);
    var m := if target < 9 then 0 else target - 9;
    assert Room(target) == Strings(m);
    assert ws == [] ==> Estimated(target, ws) == {};
    var list := Listing(Estimated(target, ws));
    compress := Overrunning(list, target, m);
    WithinExactly(Config(algo, compress, target), steps, data);
    hide Within, Estimated, WritesOf, Joined, Room, Strings;
    assert Joined(ws) + data !in list;
    assert AllSmall(Config(algo, compress, target), Estimated(target, ws));
  }

  /** The documented guarantee, over every history: whatever the compressor, the next
      write stays within the target exactly when it is not the first since the reset
      and either exceeds the target alone, so that it is checked; or comes after more
      estimates than there are outputs that pass, so that the channel is full; or
      leaves contents that were already checked. */
  lemma GuaranteeExactly(algo: Algo, target: nat, steps: seq<Step>, data: bytes)
    ensures AlwaysWithin(algo, target, steps, data)
       <==> WritesOf(steps) != [] && Covered(target, WritesOf(steps), data)
  {
    if WritesOf(steps) != [] && Covered(target, WritesOf(steps), data) {
      forall compress: Compress | Lossless(compress)
        ensures Within(Config(algo, compress, target), steps, data)
      {
        CoveredIsWithin(Config(algo, compress, target), steps, data);
      }
    } else {
      var compress := UncoveredOverruns(algo, target, steps, data);
    }
  }

  /** A target of at most nine bytes admits no estimate at all: after one write beyond
      it everything is refused, and the guarantee holds. */
  lemma TinyTargetsAlwaysHold(algo: Algo, target: nat, steps: seq<Step>, data: bytes, big: bytes)
    requires target <= 9 && big in Estimated(target, WritesOf(steps))
    ensures AlwaysWithin(algo, target, steps, data)
  {
    GuaranteeExactly(algo, target, steps, data);
    assert WritesOf(steps) != [];
  }

  /** While no write exceeded the target, only one that does is sure to stay within. */
  lemma {:induction false} SmallWritesAreUnchecked(target: nat, ws: seq<bytes>)
    requires forall i :: 0 <= i < |ws| ==> |ws[i]| <= target
    ensures Estimated(target, ws) == {}
  {
    if ws != [] {
      SmallWritesAreUnchecked(target, ws[..|ws| - 1]);
    }
  }
}
