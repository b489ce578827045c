/** Reading a response body under a hard byte cap. */
module ReadCapped {
  import opened Common

  const MAX_BODY_BYTES: nat := 1_500_000

  type Bytes = seq<bv8>

  /** The chunks some reads deliver; a read may come without a value. */
  function Values(arrivals: seq<Option<Bytes>>): seq<Bytes> {
    if arrivals == [] then []
    else
      var front, last := arrivals[..|arrivals| - 1], arrivals[|arrivals| - 1];
      Values(front) + if last.Some? then [last.value] else []
  }

  function Min(a: nat, b: nat): nat {
    if a < b then a else b
  }

  // --- the copy -----------------------------------------------------------------------------------

  function Zeros(n: nat): (r: Bytes)
    ensures |r| == n && forall i :: 0 <= i < n ==> r[i] == 0
  {
    seq(n, i => 0)
  }

  /** The chunks in front of the first empty one. */
  function BeforeEmpty(chunks: seq<Bytes>): (r: seq<Bytes>)
    ensures |r| <= |chunks| && r == chunks[..|r|] && (|r| < |chunks| ==> chunks[|r|] == [])
    ensures forall i :: 0 <= i < |r| ==> chunks[i] != []
  {
    if chunks == [] || chunks[0] == [] then [] else [chunks[0]] + BeforeEmpty(chunks[1..])
  }

  /** What the copy loop leaves in a fresh buffer of `n` bytes: it gives up at the
      first empty chunk. */
  function Filled(chunks: seq<Bytes>, n: nat): (r: Bytes)
    ensures |r| == n
  {
    var lead := Concat(BeforeEmpty(chunks));
    if |lead| >= n then lead[..n] else lead + Zeros(n - |lead|)
  }

  lemma BeforeEmptyIs(chunks: seq<Bytes>, i: nat)
    requires i <= |chunks| && (forall j :: 0 <= j < i ==> chunks[j] != []) && (i < |chunks| ==> chunks[i] == [])
    ensures BeforeEmpty(chunks) == chunks[..i]
  {
  }

  /** The buffer after `i` chunks, all of them nonempty. */
  ghost predicate CopiedTo(chunks: seq<Bytes>, buffer: Bytes, i: nat, offset: nat) {
    && i <= |chunks| && offset <= |buffer| && offset == Min(|Concat(chunks[..i])|, |buffer|)
    && buffer == Concat(chunks[..i])[..offset] + Zeros(|buffer| - offset)
    && forall j :: 0 <= j < i ==> chunks[j] != []
  }

  lemma CopyStep(chunks: seq<Bytes>, before: Bytes, after: Bytes, i: nat, offset: nat, take: nat)
    requires CopiedTo(chunks, before, i, offset) && i < |chunks|
    requires take == Min(|chunks[i]|, |before| - offset) && take > 0
    requires after == before[..offset] + chunks[i][..take] + before[offset + take..]
    ensures CopiedTo(chunks, after, i + 1, offset + take)
  {
    ConcatStep(chunks, i);
    var all := Concat(chunks[..i + 1]);
    assert offset == |Concat(chunks[..i])|;
    assert before[..offset] == Concat(chunks[..i]);
    assert all[..offset + take] == before[..offset] + chunks[i][..take];
    assert before[offset + take..] == Zeros(|after| - offset - take);
  }

  lemma CopyStops(chunks: seq<Bytes>, buffer: Bytes, i: nat, offset: nat)
    requires CopiedTo(chunks, buffer, i, offset)
    requires i == |chunks| || chunks[i] == [] || offset == |buffer|
    ensures buffer == Filled(chunks, |buffer|)
  {
    if i == |chunks| || chunks[i] == [] {
      BeforeEmptyIs(chunks, i);
    } else {
      var k := |BeforeEmpty(chunks)|;
      assert i <= k;
      ConcatGrows(chunks[..k], i);
      assert chunks[..k][..i] == chunks[..i];
      assert Zeros(0) == [];
    }
  }

  /** `out.set(c.subarray(0, take), offset)` */
  method SetAt(out: array<bv8>, chunk: Bytes, take: nat, offset: nat)
    requires take <= |chunk| && offset + take <= out.Length
    modifies out
    ensures out[..] == old(out[..offset]) + chunk[..take] + old(out[offset + take..])
  {
    for k := 0 to take
      invariant out[..offset] == old(out[..offset])
      invariant out[offset..offset + k] == chunk[..k]
      invariant out[offset + k..] == old(out[offset + k..])
    {
      out[offset + k] := chunk[k];
      assert out[offset..offset + k + 1] == out[offset..offset + k] + [chunk[k]];
    }
  }

  /** The copy loop over a fresh buffer; every write lies inside it. */
  method CopyOut(chunks: seq<Bytes>, out: array<bv8>)
    requires out[..] == Zeros(out.Length)
    modifies out
    ensures out[..] == Filled(chunks, out.Length)
  {
    var offset, i := 0, 0;
    while i < |chunks|
      invariant CopiedTo(chunks, out[..], i, offset)
    {
      var take := Min(|chunks[i]|, out.Length - offset);
      if take == 0 {
        break;
      }
      ghost var before := out[..];
      SetAt(out, chunks[i], take, offset);
      CopyStep(chunks, before, out[..], i, offset, take);
      offset := offset + take;
      i := i + 1;
    }
    CopyStops(chunks, out[..], i, offset);
  }

  // --- the read loop --------------------------------------------------------------------------------

  /** Reads until the stream ends or the bytes received reach the cap; `n` reads
      deliver `chunks`. */
  method Receive(arrivals: seq<Option<Bytes>>) returns (chunks: seq<Bytes>, total: nat, capped: bool, ghost n: nat)
    ensures n <= |arrivals| && chunks == Values(arrivals[..n]) && total == |Concat(chunks)|
    ensures capped <==> |Concat(chunks)| >= MAX_BODY_BYTES
    ensures forall m :: 0 <= m < n ==> |Concat(Values(arrivals[..m]))| < MAX_BODY_BYTES
    ensures !capped ==> n == |arrivals|
  {
    chunks, total, capped := [], 0, false;
    var i := 0;
    while i < |arrivals| && !capped
      invariant 0 <= i <= |arrivals| && chunks == Values(arrivals[..i]) && total == |Concat(chunks)|
      invariant capped <==> total >= MAX_BODY_BYTES
      invariant forall m :: 0 <= m < i ==> |Concat(Values(arrivals[..m]))| < MAX_BODY_BYTES
    {
      assert arrivals[..i + 1][..i] == arrivals[..i];
      if arrivals[i].Some? {
        var value := arrivals[i].value;
        assert (chunks + [value])[..|chunks|] == chunks;
        chunks := chunks + [value];
        total := total + |value|;
        capped := total >= MAX_BODY_BYTES;
      }
      i := i + 1;
    }
    n := i;
  }

  /** The whole function: what was received, filled into a buffer of at most the
      cap, and whether the cap was reached. */
  method Read(body: Option<seq<Option<Bytes>>>) returns (bytes: array<bv8>, capped: bool, ghost n: nat)
    ensures body.None? ==> bytes[..] == [] && !capped
    ensures body.Some? ==>
              && n <= |body.value|
              && var all := Concat(Values(body.value[..n]));
                 bytes[..] == Filled(Values(body.value[..n]), Min(|all|, MAX_BODY_BYTES))
                   && (capped <==> |all| >= MAX_BODY_BYTES)
                 && (!capped ==> n == |body.value|)
    ensures body.Some? ==> forall m :: 0 <= m < n ==>
            m <= |body.value| && |Concat(Values(body.value[..m]))| < MAX_BODY_BYTES
  {
    n := 0;
    if body.None? {
      return new bv8[0], false, 0;
    }
    var chunks, total;
    chunks, total, capped, n := Receive(body.value);
    bytes := new bv8[Min(total, MAX_BODY_BYTES)](_ => 0);
    assert bytes[..] == Zeros(bytes.Length);
    CopyOut(chunks, bytes);
  }

  // --- when it is exact -------------------------------------------------------------------------------

  /** The result is the first bytes received exactly when every byte from the
      first empty chunk on happens to be zero. */
  lemma ExactIff(chunks: seq<Bytes>, n: nat)
    requires n <= |Concat(chunks)|
    ensures Filled(chunks, n) == Concat(chunks)[..n]
            <==> forall k :: |Concat(BeforeEmpty(chunks))| <= k < n ==> Concat(chunks)[k] == 0
  {
    var lead, all, filled := Concat(BeforeEmpty(chunks)), Concat(chunks), Filled(chunks, n);
    ConcatGrows(chunks, |BeforeEmpty(chunks)|);
    forall k | |lead| <= k < n
      ensures filled[k] == 0
    {
      assert filled[k] == Zeros(n - |lead|)[k - |lead|];
    }
    if filled == all[..n] {
      forall k | |lead| <= k < n
        ensures all[k] == 0
      {
        assert all[..n][k] == filled[k];
      }
    }
  }

  /** With no empty chunk it is exact, for chunks of any size. */
  lemma ExactWithoutEmptyChunks(chunks: seq<Bytes>, n: nat)
    requires n <= |Concat(chunks)| && forall i :: 0 <= i < |chunks| ==> chunks[i] != []
    ensures Filled(chunks, n) == Concat(chunks)[..n]
  {
    BeforeEmptyIs(chunks, |chunks|);
    assert chunks[..|chunks|] == chunks;
    ExactIff(chunks, n);
  }

  /** An empty chunk in the middle loses what follows it. */
  lemma EmptyChunkLosesTheRest()
    ensures var chunks: seq<Bytes> := [[1], [], [2]]; Concat(chunks) == [1, 2] && Filled(chunks, 2) == [1, 0]
  {
    var chunks: seq<Bytes> := [[1], [], [2]];
    ConcatStep(chunks, 0);
    ConcatStep(chunks, 1);
    ConcatStep(chunks, 2);
    assert chunks[..0] == [] && chunks[..3] == chunks;
    BeforeEmptyIs(chunks, 1);
    assert Zeros(1) == [0];
  }
}
