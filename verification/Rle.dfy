/** The last stage of `bzip2.decompress`: the automaton that expands runs.
    Four equal bytes are followed by a count 0..255 of further copies. */
module Rle {
  import opened Bits

  function Repeat(x: byte, n: nat): (r: seq<byte>)
    ensures |r| == n && forall i :: 0 <= i < n ==> r[i] == x
  {
    seq(n, _ => x)
  }

  lemma RepeatMore(x: byte, n: nat)
    ensures Repeat(x, n + 1) == [x] + Repeat(x, n)
    ensures Repeat(x, n + 1) == Repeat(x, n) + [x]
  {
  }

  // ----- the automaton

  /** The variable `current` is a byte, or -1 right after a count; `run` is -1 before
      the first byte, otherwise one less than the length of the run in progress. */
  predicate State(current: int, run: int)
  {
    -1 <= current < 256 && -1 <= run <= 3 && (run == 3 ==> current >= 0)
  }

  /** Everything the loop appends to `output` for the bytes e, from a given state. */
  function Expand(e: seq<byte>, current: int, run: int): seq<byte>
    requires State(current, run)
  {
    if e == [] then []
    else if run == 3 then Repeat(current as byte, e[0]) + Expand(e[1..], -1, 0)
    else [e[0]] + Expand(e[1..], e[0], if e[0] == current then run + 1 else 0)
  }

  /** The optional argument `len` of decompress: 0 (or absent) means no limit. */
  function Limited(out: seq<byte>, len: nat): seq<byte>
  {
    if len == 0 || |out| <= len then out else out[..len]
  }

  // ----- the encoding it inverts

  datatype Run = Run(value: byte, length: nat)

  function RunText(r: Run): seq<byte> { Repeat(r.value, r.length) }

  function RunCode(r: Run): seq<byte>
    requires r.length <= 259
  {
    if r.length < 4 then Repeat(r.value, r.length) else Repeat(r.value, 4) + [r.length - 4]
  }

  /** Runs an encoder may emit: a run shorter than four must end because the byte changes. */
  ghost predicate Encodable(rs: seq<Run>)
  {
    && (forall i :: 0 <= i < |rs| ==> 1 <= rs[i].length <= 259)
    && (forall i :: 0 <= i < |rs| - 1 && rs[i].length < 4 ==> rs[i].value != rs[i + 1].value)
  }

  function PlainText(rs: seq<Run>): seq<byte>
  {
    if rs == [] then [] else RunText(rs[0]) + PlainText(rs[1..])
  }

  function RunLengthCode(rs: seq<Run>): seq<byte>
    requires forall i :: 0 <= i < |rs| ==> rs[i].length <= 259
  {
    if rs == [] then [] else RunCode(rs[0]) + RunLengthCode(rs[1..])
  }

  /** k more copies of v (at most four in a row) just lengthen the run. */
  lemma {:induction false} ExpandCopies(v: byte, k: nat, r: nat, rest: seq<byte>)
    requires r + k <= 3
    ensures Expand(Repeat(v, k) + rest, v, r) == Repeat(v, k) + Expand(rest, v, r + k)
  {
    if k == 0 {
      assert Repeat(v, 0) + rest == rest;
    } else {
      RepeatMore(v, k - 1);
      var e := Repeat(v, k) + rest;
      assert e[0] == v && e[1..] == Repeat(v, k - 1) + rest;
      ExpandCopies(v, k - 1, r + 1, rest);
    }
  }

  /** A byte that does not continue a run starts one, whatever the state. */
  lemma ExpandRun(v: byte, k: nat, current: int, run: int, rest: seq<byte>)
    requires State(current, run) && run < 3 && (run == -1 || current != v) && 1 <= k <= 4
    ensures Expand(Repeat(v, k) + rest, current, run) == Repeat(v, k) + Expand(rest, v, k - 1)
  {
    RepeatMore(v, k - 1);
    var e := Repeat(v, k) + rest;
    assert e[0] == v && e[1..] == Repeat(v, k - 1) + rest;
    ExpandCopies(v, k - 1, 0, rest);
  }

  /** The code of one run expands to that run and leaves a state that only matters
      after a short run. */
  lemma ExpandRunCode(r: Run, current: int, run: int, rest: seq<byte>)
    requires State(current, run) && run < 3 && (run == -1 || current != r.value) && 1 <= r.length <= 259
    ensures Expand(RunCode(r) + rest, current, run) == RunText(r) +
      if r.length < 4 then Expand(rest, r.value, r.length - 1) else Expand(rest, -1, 0)
  {
    if r.length < 4 {
      ExpandRun(r.value, r.length, current, run, rest);
    } else {
      var tail := [r.length - 4] + rest;
      var more := Repeat(r.value, r.length - 4);
      assert RunCode(r) + rest == Repeat(r.value, 4) + tail;
      ExpandRun(r.value, 4, current, run, tail);
      assert tail[0] == r.length - 4 && tail[1..] == rest;
      assert Expand(tail, r.value, 3) == more + Expand(rest, -1, 0);
      var four := Repeat(r.value, 4);
      assert RunText(r) == four + more;
      calc {
        Expand(RunCode(r) + rest, current, run);
        four + Expand(tail, r.value, 3);
        four + (more + Expand(rest, -1, 0));
        RunText(r) + Expand(rest, -1, 0);
      }
    }
  }

  lemma {:induction false} ExpandInverts(rs: seq<Run>, current: int, run: int)
    requires Encodable(rs) && State(current, run) && run < 3
    requires rs != [] && run != -1 ==> current != rs[0].value
    ensures Expand(RunLengthCode(rs), current, run) == PlainText(rs)
  {
    if rs != [] {
      var r, rest := rs[0], rs[1..];
      EncodableTail(rs);
      ExpandRunCode(r, current, run, RunLengthCode(rest));
      if r.length < 4 {
        ExpandInverts(rest, r.value, r.length - 1);
      } else {
        ExpandInverts(rest, -1, 0);
      }
    }
  }

  lemma EncodableTail(rs: seq<Run>)
    requires Encodable(rs) && rs != []
    ensures Encodable(rs[1..])
    ensures |rs| > 1 && rs[0].length < 4 ==> rs[0].value != rs[1].value
  {
    var rest := rs[1..];
    forall i | 0 <= i < |rest| - 1 && rest[i].length < 4 ensures rest[i].value != rest[i + 1].value {
      assert rest[i] == rs[i + 1] && rest[i + 1] == rs[i + 2];
    }
  }

  /** Run-length round trip. The decoder starts with run == -1, and then the byte that
      `current` begins with is irrelevant. */
  lemma RunLengthRoundTrip(rs: seq<Run>, current: byte)
    requires Encodable(rs)
    ensures Expand(RunLengthCode(rs), current, -1) == PlainText(rs)
  {
    ExpandInverts(rs, current, -1);
  }

  // ----- every text has an encoding

  /** Length of the run at the start of s, capped at 259. */
  function RunLength(s: seq<byte>, k: nat): (r: nat)
    requires 1 <= k <= |s| && k <= 259
    requires forall i :: 0 <= i < k ==> s[i] == s[0]
    ensures k <= r <= |s| && r <= 259
    ensures forall i :: 0 <= i < r ==> s[i] == s[0]
    ensures r < 259 && r < |s| ==> s[r] != s[0]
    decreases |s| - k
  {
    if k < 259 && k < |s| && s[k] == s[0] then RunLength(s, k + 1) else k
  }

  function FirstRun(s: seq<byte>): (r: Run)
    requires s != []
    ensures 1 <= r.length <= 259 && r.length <= |s| && r.value == s[0]
    ensures RunText(r) + s[r.length..] == s
    ensures r.length < 4 && r.length < |s| ==> s[r.length] != s[0]
  {
    Run(s[0], RunLength(s, 1))
  }

  function Runs(s: seq<byte>): (rs: seq<Run>)
  {
    if s == [] then [] else [FirstRun(s)] + Runs(s[FirstRun(s).length..])
  }

  lemma {:induction false} EveryTextHasRuns(s: seq<byte>)
    ensures Encodable(Runs(s)) && PlainText(Runs(s)) == s
    ensures s != [] ==> Runs(s) != [] && Runs(s)[0].value == s[0]
  {
    if s != [] {
      var r := FirstRun(s);
      EveryTextHasRuns(s[r.length..]);
      PrependRun(r, Runs(s[r.length..]));
    }
  }

  lemma PrependRun(r: Run, rs: seq<Run>)
    requires Encodable(rs) && 1 <= r.length <= 259
    requires rs != [] && r.length < 4 ==> r.value != rs[0].value
    ensures Encodable([r] + rs) && PlainText([r] + rs) == RunText(r) + PlainText(rs)
  {
    var all := [r] + rs;
    assert all[1..] == rs;
    forall i | 0 <= i < |all| - 1 && all[i].length < 4 ensures all[i].value != all[i + 1].value {
      assert all[i + 1] == rs[i];
      if i > 0 { assert all[i] == rs[i - 1]; }
    }
  }

  // ----- how much the automaton can expand

  function Credit(current: int, run: int): nat
    requires State(current, run)
  {
    if current < 0 || run < 0 then 0 else 254 * (run + 1)
  }

  lemma {:induction false} ExpandAtMost(e: seq<byte>, current: int, run: int)
    requires State(current, run)
    ensures 5 * |Expand(e, current, run)| <= 259 * |e| + Credit(current, run)
  {
    if e != [] {
      if run == 3 {
        ExpandAtMost(e[1..], -1, 0);
      } else {
        ExpandAtMost(e[1..], e[0], if e[0] == current then run + 1 else 0);
      }
    }
  }

  /** A block of n bytes never expands to more than 51.8 n. */
  lemma ExpansionBound(e: seq<byte>, current: byte)
    ensures 5 * |Expand(e, current, -1)| <= 259 * |e|
  {
    ExpandAtMost(e, current, -1);
  }
}
