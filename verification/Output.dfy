/** The output loop of `bzip2.decompress`: the pointer walk feeds the run-length
    automaton, and an optional limit cuts the output short. */
module Output {
  import opened Bits
  import opened Bwt
  import opened Rle

  /** What a buffer of bytes b decodes to, from row origPtr. */
  ghost function Decoded(b: seq<byte>, origPtr: nat): seq<byte>
    requires origPtr < |b|
  {
    Expand(Unwound(b, origPtr), b[origPtr], -1)
  }

  /** `while(copies--)`: appends copies one by one and stops when the limit is reached. */
  method Emit(output: seq<byte>, outbyte: byte, copies: nat, len: nat) returns (out: seq<byte>, done: bool)
    requires len == 0 || |output| < len
    ensures done <==> len != 0 && |output| + copies >= len
    ensures done ==> out == (output + Repeat(outbyte, copies))[..len]
    ensures !done ==> out == output + Repeat(outbyte, copies)
  {
    out, done := output, false;
    for k := 0 to copies
      invariant out == output + Repeat(outbyte, k)
      invariant len != 0 ==> |out| < len
    {
      RepeatMore(outbyte, k);
      out := out + [outbyte];
      if len != 0 && |out| == len {
        return out, true;
      }
    }
  }

  lemma CutShort(full: seq<byte>, before: seq<byte>, more: seq<byte>, rest: seq<byte>, len: nat)
    requires full == before + (more + rest) && len != 0 && |before| + |more| >= len
    ensures (before + more)[..len] == Limited(full, len)
  {
  }

  /** What the loop still has to append when count' slots remain. */
  ghost function Pending(b: seq<byte>, pos: nat, k: nat, current: int, run: int): seq<byte>
    requires pos < |b| && State(current, run)
  {
    Expand(Walk(b, pos, k), current, run)
  }

  /** One turn of the loop up to the inner `while`: the next slot, and what to append. */
  method NextSlot(buf: array<nat>, ghost b: seq<byte>, pos0: nat, current0: int, run0: int, ghost k: nat)
      returns (pos: nat, current: int, run: int, copies: nat, outbyte: byte)
    requires |b| <= buf.Length && |b| <= 0x80_0000 && Packed(buf[..|b|], b) && pos0 < |b|
    requires State(current0, run0) && k > 0
    ensures pos < |b| && State(current, run)
    ensures Pending(b, pos0, k, current0, run0) == Repeat(outbyte, copies) + Pending(b, pos, k - 1, current, run)
  {
    ReadSlot(buf[..|b|], b, pos0);
    assert buf[pos0] == buf[..|b|][pos0];
    PendingStep(b, pos0, k, current0, run0);
    var previous := current0;
    pos, current := buf[pos0] / 0x100, buf[pos0] % 0x100;
    run := run0 + 1;
    if run0 == 3 {
      copies, outbyte, current := current, previous, -1;
    } else {
      copies, outbyte := 1, current;
    }
    if current != previous {
      run := 0;
    }
  }

  /** How the output and the bytes still to come make up the full text. */
  ghost predicate Splits(full: seq<byte>, output: seq<byte>, rest: seq<byte>, len: nat)
  {
    full == output + rest && (len != 0 ==> |output| < len)
  }

  method Unwind(buf: array<nat>, origPtr: nat, count: nat, len: nat, ghost b: seq<byte>) returns (output: seq<byte>)
    requires origPtr < count <= buf.Length && count <= 0x80_0000
    requires |b| == count && Packed(buf[..count], b)
    ensures output == Limited(Decoded(b, origPtr), len)
  {
    ReadSlot(buf[..count], b, origPtr);
    assert buf[origPtr] == buf[..count][origPtr];
    var pos: nat, current: int := buf[origPtr] / 0x100, buf[origPtr] % 0x100;
    output := WalkSlots(buf, pos, current, -1, count, len, b, Decoded(b, origPtr));
  }

  /** The loop over the slots. */
  method WalkSlots(buf: array<nat>, pos0: nat, current0: int, run0: int, count: nat, len: nat,
                   ghost b: seq<byte>, ghost full: seq<byte>) returns (output: seq<byte>)
    requires count <= buf.Length && count <= 0x80_0000 && |b| == count && Packed(buf[..count], b)
    requires pos0 < count && State(current0, run0) && full == Pending(b, pos0, count, current0, run0)
    ensures output == Limited(full, len)
  {
    NonePending(b);
    hide Pending;
    var pos: nat, current, run, count' := pos0, current0, run0, count;
    output := [];
    assert full == output + full;
    while count' > 0
      invariant 0 <= count' <= count && pos < |b| && State(current, run)
      invariant Splits(full, output, Pending(b, pos, count', current, run), len)
    {
      var copies, outbyte, done;
      ghost var was := Pending(b, pos, count', current, run);
      pos, current, run, copies, outbyte := NextSlot(buf, b, pos, current, run, count');
      count' := count' - 1;
      ghost var rest := Pending(b, pos, count', current, run);
      output, done := Append(full, was, rest, output, outbyte, copies, len);
      if done {
        return;
      }
    }
  }

  lemma NonePending(b: seq<byte>)
    ensures forall pos: nat, current: int, run: int :: pos < |b| && State(current, run) ==>
      Pending(b, pos, 0, current, run) == []
  {
  }

  method Append(ghost full: seq<byte>, ghost was: seq<byte>, ghost rest: seq<byte>,
      output: seq<byte>, outbyte: byte, copies: nat, len: nat) returns (out: seq<byte>, done: bool)
    requires Splits(full, output, was, len) && was == Repeat(outbyte, copies) + rest
    ensures if done then out == Limited(full, len) else Splits(full, out, rest, len)
  {
    out, done := Emit(output, outbyte, copies, len);
    if done {
      CutShort(full, output, Repeat(outbyte, copies), rest, len);
    } else {
      Regroup(output, Repeat(outbyte, copies), rest);
    }
  }

  lemma Regroup(before: seq<byte>, more: seq<byte>, rest: seq<byte>)
    ensures before + (more + rest) == before + more + rest
  {
  }

  /** One turn of the loop, on the specification side. */
  lemma PendingStep(b: seq<byte>, pos: nat, k: nat, current: int, run: int)
    requires pos < |b| && k > 0 && State(current, run)
    ensures Pending(b, pos, k, current, run) ==
      if run == 3 then Repeat(current as byte, b[pos]) + Pending(b, Pointer(b, pos), k - 1, -1, 0)
      else Repeat(b[pos], 1) + Pending(b, Pointer(b, pos), k - 1, b[pos], if b[pos] == current then run + 1 else 0)
  {
    assert Walk(b, pos, k) == [b[pos]] + Walk(b, Pointer(b, pos), k - 1);
    assert Walk(b, pos, k)[1..] == Walk(b, Pointer(b, pos), k - 1);
    assert Repeat(b[pos], 1) == [b[pos]];
  }

  lemma ReadSlot(s: seq<nat>, b: seq<byte>, j: nat)
    requires j < |b| <= 0x80_0000 && Packed(s, b)
    ensures s[j] % 0x100 == b[j] && s[j] / 0x100 == Pointer(b, j) < |b|
  {
  }

  /** Decompressing the transform of a run-length code gives back the text. */
  lemma DecodedInverts(b: seq<byte>, origPtr: nat, rs: seq<Run>)
    requires Encodable(rs) && IsTransform(b, origPtr, RunLengthCode(rs))
    ensures origPtr < |b| && Decoded(b, origPtr) == PlainText(rs)
  {
    InverseTransform(b, origPtr, RunLengthCode(rs));
    RunLengthRoundTrip(rs, b[origPtr]);
  }
}
