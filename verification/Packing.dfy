/**
 * What both payloaders share: the size-prefixed units of an aggregation packet (section 4.4.2 of RFC 7798,
 * section 5.7.1 of RFC 6184) and the pieces of a fragmented unit.
 */
module Packing {
  import opened Bytes

  function SplitAggregation(b: Buf): seq<Buf> {
    if |b| < 2 || |b| < 2 + U16(b) then [] else [b[2..2 + U16(b)]] + SplitAggregation(b[2 + U16(b)..])
  }

  function AggregatedSize(nals: seq<Buf>): nat {
    if nals == [] then 0 else AggregatedSize(nals[..|nals| - 1]) + |nals[|nals| - 1]| + 2
  }

  function Aggregated(nals: seq<Buf>): Buf {
    if nals == [] then []
    else Aggregated(nals[..|nals| - 1]) + U16Bytes(|nals[|nals| - 1]|) + nals[|nals| - 1]
  }

  lemma SplitOne(n: Buf, tail: Buf)
    requires |n| < 0x1_00_00
    ensures SplitAggregation(U16Bytes(|n|) + n + tail) == [n] + SplitAggregation(tail)
  {
    hide U16, U16Bytes;
    var next := U16Bytes(|n|) + n + tail;
    assert next == U16Bytes(|n|) + (n + tail);
    U16RoundTrip(|n|, n + tail);
    assert next[2..2 + |n|] == n && next[2 + |n|..] == tail;
  }

  lemma {:induction false} SplitAggregated(nals: seq<Buf>, tail: Buf)
    requires forall n <- nals :: |n| < 0x1_00_00
    ensures SplitAggregation(Aggregated(nals) + tail) == nals + SplitAggregation(tail)
    decreases |nals|
  {
    hide U16, U16Bytes, SplitAggregation;
    if nals == [] {
      assert Aggregated(nals) + tail == tail;
    } else {
      var init, n := nals[..|nals| - 1], nals[|nals| - 1];
      var next := U16Bytes(|n|) + n + tail;
      assert Aggregated(nals) + tail == Aggregated(init) + next;
      SplitAggregated(init, next);
      SplitOne(n, tail);
      assert init + ([n] + SplitAggregation(tail)) == nals + SplitAggregation(tail);
    }
  }

  /** Pieces of at most `max` bytes. */
  function Cut(max: nat, rest: Buf): (parts: seq<Buf>)
    requires max > 0
    ensures Concat(parts) == rest && forall p <- parts :: p != []
    ensures |rest| > max ==> |parts| >= 2
    ensures forall p <- parts :: |p| <= max
  {
    if rest == [] then []
    else if |rest| <= max then
      assert Concat([rest]) == rest + Concat([]);
      [rest]
    else [rest[..max]] + Cut(max, rest[max..])
  }
}
