/** Merging of firewall states (lib/fwstate/ops.h). */
module FwOps {
  const U64: nat := 0x1_0000_0000_0000_0000

  /** struct fw4_state_key and fw6_state_key: the fields their equality compares. */
  datatype Key = Key(proto: nat, srcPort: nat, dstPort: nat, srcAddr: nat, dstAddr: nat)

  /** struct fw_state_value. Packet counters wrap at 64 bits. */
  datatype Value = Value(external: bool, flags: bv8, lastTtl: nat, createdAt: nat, updatedAt: nat,
                         packetsBackward: nat, packetsForward: nat)

  /** fwmap_update_value_fwstate, as the value left in `*dst`. */
  function Update(dst: Value, src: Value, dstEmpty: bool): Value {
    if dstEmpty then src else
      src.(createdAt := dst.createdAt,
           flags := src.flags | dst.flags,
           packetsForward := (src.packetsForward + dst.packetsForward) % U64,
           packetsBackward := (src.packetsBackward + dst.packetsBackward) % U64)
  }

  /** fwmap_promote_value_fwstate, as the value left in `*dst`. */
  function Promote(newValue: Value, oldValue: Value): Value {
    Value(newValue.external, newValue.flags | oldValue.flags, newValue.lastTtl, oldValue.createdAt, newValue.updatedAt,
          (newValue.packetsBackward + oldValue.packetsBackward) % U64,
          (newValue.packetsForward + oldValue.packetsForward) % U64)
  }

  /** A state joined with the previous one of the same connection. */
  function Merge(v: Value, prev: Value): Value {
    Promote(v, prev)
  }

  /** In-layer update and cross-layer promotion are one and the same merge. */
  lemma UpdateIsPromote(v: Value, prev: Value)
    ensures Update(prev, v, false) == Merge(v, prev) && Update(prev, v, true) == v
  {
  }

  /** Merging is associative: how a run of frames is grouped over layers does not show. */
  lemma MergeAssociative(a: Value, b: Value, c: Value)
    ensures Merge(c, Merge(b, a)) == Merge(Merge(c, b), a)
  {
    assert c.flags | (b.flags | a.flags) == (c.flags | b.flags) | a.flags;
  }

  /** A run of states of one connection, merged in order. */
  ghost function MergeAll(vs: seq<Value>): Value
    requires |vs| > 0
  {
    if |vs| == 1 then vs[0] else Merge(vs[|vs| - 1], MergeAll(vs[..|vs| - 1]))
  }

  /** Where a run is cut between layers does not show: merging the merged parts is merging the run. */
  lemma {:induction false} MergeSplit(a: seq<Value>, b: seq<Value>)
    requires |a| > 0 && |b| > 0
    ensures MergeAll(a + b) == Merge(MergeAll(b), MergeAll(a))
    decreases |b|
  {
    var n := |b| - 1;
    assert (a + b)[..|a| + n] == a + b[..n];
    if n == 0 {
      assert a + b[..n] == a;
    } else {
      MergeSplit(a, b[..n]);
      MergeAssociative(MergeAll(a), MergeAll(b[..n]), b[n]);
    }
  }
}
