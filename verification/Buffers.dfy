/** Zeroed byte buffers that are written piece by piece, later pieces over earlier ones. */
module Buffers {
  import opened Bytes

  datatype Piece = Piece(at: nat, content: bytes)

  predicate Covers(p: Piece, j: nat) { p.at <= j < p.at + |p.content| }

  /** What shows at a position: the last piece that covers it, or zero. */
  function Shown(pieces: seq<Piece>, j: nat): byte {
    if pieces == [] then 0
    else
      var last := pieces[|pieces| - 1];
      if Covers(last, j) then last.content[j - last.at] else Shown(pieces[..|pieces| - 1], j)
  }

  predicate Shows(buffer: bytes, pieces: seq<Piece>) { forall j :: 0 <= j < |buffer| ==> buffer[j] == Shown(pieces, j) }

  /** `after` is `before` with one more piece on it; what sticks out of the buffer is dropped. */
  predicate Over(before: bytes, after: bytes, p: Piece) {
    && |after| == |before|
    && forall j :: 0 <= j < |before| ==> after[j] == if Covers(p, j) then p.content[j - p.at] else before[j]
  }

  lemma OneMore(before: bytes, after: bytes, pieces: seq<Piece>, p: Piece)
    requires Shows(before, pieces) && Over(before, after, p)
    ensures Shows(after, pieces + [p])
  {
    assert (pieces + [p])[..|pieces|] == pieces;
  }

  /** The buffer and its pieces after one more. */
  lemma Put(before: bytes, after: bytes, pieces: seq<Piece>, p: Piece) returns (now: bytes, more: seq<Piece>)
    requires Shows(before, pieces) && Over(before, after, p)
    ensures now == after && more == pieces + [p] && Shows(now, more)
  {
    now, more := after, pieces + [p];
    OneMore(before, after, pieces, p);
  }

  /** The pieces leave exactly `done`, with nothing behind it. */
  ghost predicate Tiled(pieces: seq<Piece>, done: bytes) {
    forall j: nat :: Shown(pieces, j) == if j < |done| then done[j] else 0
  }

  lemma ShownTiles(buffer: bytes, pieces: seq<Piece>, done: bytes)
    requires Shows(buffer, pieces) && Tiled(pieces, done) && |done| == |buffer|
    ensures buffer == done
  {}

  /** A piece put at the end of what is done, in a slot that it may leave partly blank. */
  lemma Tile(pieces: seq<Piece>, done: bytes, p: Piece, slot: nat)
    requires Tiled(pieces, done) && p.at == |done| && |p.content| <= slot
    ensures Tiled(pieces + [p], done + Fit(p.content, slot))
  {
    assert (pieces + [p])[..|pieces|] == pieces;
  }
}
