/** The word operations behind the ancestor bitsets (esl_proxy/include/algorithm/ring_buf.h:52-70): a row of
    64-bit words is a set of numbers. */
module BitWords {
  type Row = seq<bv64>

  predicate Bit6(w: bv64, k: bv6) {
    (w >> k) & 1 == 1
  }

  predicate Bit(w: bv64, i: nat)
    requires i < 64
  {
    Bit6(w, i as bv6)
  }

  function OneBit(i: nat): bv64
    requires i < 64
  {
    (1 as bv64) << (i as bv6)
  }

  function Or(w: bv64, v: bv64): bv64 {
    w | v
  }

  /** Bit `c % 64` of word `c / 64`. */
  predicate BitAt(row: Row, c: nat)
    requires c < 64 * |row|
  {
    Bit(row[c / 64], c % 64)
  }

  function RowSet(row: Row): set<nat> {
    set c: nat | c < 64 * |row| && BitAt(row, c)
  }

  // ---- One word ---------------------------------------------------------------------------

  lemma OrBit6(w: bv64, v: bv64, k: bv6)
    ensures Bit6(w | v, k) <==> Bit6(w, k) || Bit6(v, k)
  {
  }

  lemma OneBit6(i: bv6, j: bv6)
    ensures Bit6((1 as bv64) << i, j) <==> i == j
  {
  }

  lemma IndexBack(i: nat)
    requires i < 64
    ensures (i as bv6) as int == i
  {
  }

  lemma SameIndex(i: nat, j: nat)
    requires i < 64 && j < 64
    ensures i as bv6 == j as bv6 <==> i == j
  {
    IndexBack(i);
    IndexBack(j);
  }

  lemma OrBit(w: bv64, v: bv64, i: nat)
    requires i < 64
    ensures Bit(Or(w, v), i) <==> Bit(w, i) || Bit(v, i)
  {
    OrBit6(w, v, i as bv6);
  }

  lemma SetBit(w: bv64, i: nat, j: nat)
    requires i < 64 && j < 64
    ensures Bit(Or(w, OneBit(i)), j) <==> Bit(w, j) || i == j
  {
    OrBit(w, OneBit(i), j);
    OneBit6(i as bv6, j as bv6);
    SameIndex(i, j);
  }

  lemma NoBit6(k: bv6)
    ensures !Bit6(0, k)
  {
  }

  // ---- A row of words ---------------------------------------------------------------------

  /** A row of zero words is the empty set. */
  lemma NoBits(n: nat)
    ensures RowSet(seq(n, _ => 0)) == {}
  {
    var row: Row := seq(n, _ => 0);
    forall c: nat | c < 64 * n ensures !BitAt(row, c) {
      NoBit6((c % 64) as bv6);
    }
  }

  /** OR with the shifted 1 adds one number and no other, in whichever word. */
  lemma SetRowBit(row: Row, c: nat)
    requires c < 64 * |row|
    ensures RowSet(row[c / 64 := Or(row[c / 64], OneBit(c % 64))]) == RowSet(row) + {c}
  {
    var row' := row[c / 64 := Or(row[c / 64], OneBit(c % 64))];
    forall d: nat | d < 64 * |row| ensures BitAt(row', d) <==> BitAt(row, d) || d == c {
      if d / 64 == c / 64 {
        SetBit(row[c / 64], c % 64, d % 64);
      }
    }
  }

  /** The word-wise OR of two rows is the union of their sets. */
  lemma OrRows(a: Row, b: Row, r: Row)
    requires |a| == |b| == |r| && forall w :: 0 <= w < |r| ==> r[w] == Or(a[w], b[w])
    ensures RowSet(r) == RowSet(a) + RowSet(b)
  {
    forall c: nat | c < 64 * |r| ensures BitAt(r, c) <==> BitAt(a, c) || BitAt(b, c) {
      OrBit(a[c / 64], b[c / 64], c % 64);
    }
  }
}
