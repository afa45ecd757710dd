/**
 The value layer of a decoding context: a finite map from context-register
 names to 64-bit unsigned values, and the two edits a context supports on it
 (set a register, forget a register). The class in module Context is
 specified in terms of these functions, and the algebraic laws of contexts
 (idempotence, commutativity, order independence) are proved here.
 */
module ContextMap {

  /** The C++ `uint64_t`: values are unsigned and 64 bits wide. */
  newtype uint64 = x: int | 0 <= x < 0x1_0000_0000_0000_0000

  /** `ContextValues`: each register name occurs at most once, by construction of a map. */
  type ContextValues = map<string, uint64>

  /** One (register name, value) pair, as a decoder hands it to a context. */
  type RegValue = (string, uint64)

  /** The values after `creg` is set to `value`: inserted when absent, overwritten when present. */
  function Put(m: ContextValues, creg: string, value: uint64): (r: ContextValues)
    ensures r.Keys == m.Keys + {creg}
    ensures creg in r && r[creg] == value
    ensures forall k :: k in m && k != creg ==> r[k] == m[k]
  {
    m[creg := value]
  }

  /** The values after `creg` is forgotten; nothing happens when it was not set. */
  function Without(m: ContextValues, creg: string): (r: ContextValues)
    ensures r.Keys == m.Keys - {creg}
    ensures creg !in r
    ensures forall k :: k in r ==> r[k] == m[k]
  {
    m - {creg}
  }

  /** The registers that a list of pairs mentions. */
  function Regs(ps: seq<RegValue>): (regs: set<string>)
  {
    set i | 0 <= i < |ps| :: ps[i].0
  }

  /** No register is mentioned twice in `ps`. */
  predicate DistinctRegs(ps: seq<RegValue>)
  {
    forall i, j :: 0 <= i < j < |ps| ==> ps[i].0 != ps[j].0
  }

  /**
   The values after the chain of puts `Put(ps[0])`, then `Put(ps[1])`, and so
   on: what a decoder obtains by calling PutContextReg once per pair.
   */
  function PutAll(m: ContextValues, ps: seq<RegValue>): (r: ContextValues)
    ensures r.Keys == m.Keys + Regs(ps)
    decreases |ps|
  {
    if ps == [] then m
    else
      var init, last := ps[..|ps| - 1], ps[|ps| - 1];
      assert Regs(ps) == Regs(init) + {last.0} by {
        assert forall i :: 0 <= i < |init| ==> init[i] == ps[i];
      }
      Put(PutAll(m, init), last.0, last.1)
  }

  /** A map is determined by its set of (key, value) pairs. */
  lemma ItemsDetermineMap(a: ContextValues, b: ContextValues)
    ensures a == b <==> a.Items == b.Items
  {
    if a.Items == b.Items {
      forall k | k in a ensures k in b && b[k] == a[k] {
        assert (k, a[k]) in b.Items;
      }
      forall k | k in b ensures k in a {
        assert (k, b[k]) in a.Items;
      }
    }
  }

  // ---------------------------------------------------------------------
  // Laws of single edits
  // ---------------------------------------------------------------------

  /** Putting the same pair twice is the same as putting it once. */
  lemma PutIdempotent(m: ContextValues, creg: string, value: uint64)
    ensures Put(Put(m, creg, value), creg, value) == Put(m, creg, value)
  {
  }

  /** A second put of the same register replaces the first. */
  lemma PutOverwrites(m: ContextValues, creg: string, v1: uint64, v2: uint64)
    ensures Put(Put(m, creg, v1), creg, v2) == Put(m, creg, v2)
  {
  }

  /** Puts of two different registers can be done in either order. */
  lemma PutCommutes(m: ContextValues, r1: string, v1: uint64, r2: string, v2: uint64)
    requires r1 != r2
    ensures Put(Put(m, r1, v1), r2, v2) == Put(Put(m, r2, v2), r1, v1)
  {
  }

  /** Forgetting a register twice is the same as forgetting it once. */
  lemma WithoutIdempotent(m: ContextValues, creg: string)
    ensures Without(Without(m, creg), creg) == Without(m, creg)
  {
  }

  /** Forgetting a register that is not set changes nothing. */
  lemma WithoutAbsent(m: ContextValues, creg: string)
    requires creg !in m
    ensures Without(m, creg) == m
  {
  }

  /** Setting a register that was not set and then forgetting it gives back the original values. */
  lemma WithoutUndoesPut(m: ContextValues, creg: string, value: uint64)
    requires creg !in m
    ensures Without(Put(m, creg, value), creg) == m
  {
  }

  /** Forgetting a register discards any value put there before. */
  lemma WithoutAfterPut(m: ContextValues, creg: string, value: uint64)
    ensures Without(Put(m, creg, value), creg) == Without(m, creg)
  {
  }

  /** A put and a removal of two different registers can be done in either order. */
  lemma PutWithoutCommute(m: ContextValues, r1: string, v1: uint64, r2: string)
    requires r1 != r2
    ensures Without(Put(m, r1, v1), r2) == Put(Without(m, r2), r1, v1)
  {
  }

  // ---------------------------------------------------------------------
  // Chains of puts
  // ---------------------------------------------------------------------

  /**
   After a chain of puts of distinct registers, each register named in the
   chain holds the value it was given, and every other register keeps its
   old value.
   */
  lemma {:induction false} PutAllDistinct(m: ContextValues, ps: seq<RegValue>)
    requires DistinctRegs(ps)
    ensures forall i :: 0 <= i < |ps| ==> PutAll(m, ps)[ps[i].0] == ps[i].1
    ensures forall k :: k in m && k !in Regs(ps) ==> PutAll(m, ps)[k] == m[k]
  {
    if ps != [] {
      var init, last := ps[..|ps| - 1], ps[|ps| - 1];
      assert DistinctRegs(init);
      PutAllDistinct(m, init);
      assert Regs(ps) == Regs(init) + {last.0} by {
        assert forall i :: 0 <= i < |init| ==> init[i] == ps[i];
      }
      forall i | 0 <= i < |ps| - 1
        ensures PutAll(m, ps)[ps[i].0] == ps[i].1
      {
        assert init[i] == ps[i];
      }
    }
  }

  /**
   Insertion order does not matter: two chains of puts of distinct registers
   that hold the same (register, value) pairs, in whatever order, produce the
   same values.
   */
  lemma {:induction false} PutAllOrderIrrelevant(m: ContextValues, ps: seq<RegValue>, qs: seq<RegValue>)
    requires DistinctRegs(ps) && DistinctRegs(qs)
    requires forall p :: p in ps <==> p in qs
    ensures PutAll(m, ps) == PutAll(m, qs)
  {
    PutAllDistinct(m, ps);
    PutAllDistinct(m, qs);
    var a, b := PutAll(m, ps), PutAll(m, qs);
    assert Regs(ps) == Regs(qs) by {
      forall k | k in Regs(ps) ensures k in Regs(qs) {
        var i :| 0 <= i < |ps| && ps[i].0 == k;
        assert ps[i] in qs;
        var j :| 0 <= j < |qs| && qs[j] == ps[i];
      }
      forall k | k in Regs(qs) ensures k in Regs(ps) {
        var j :| 0 <= j < |qs| && qs[j].0 == k;
        assert qs[j] in ps;
        var i :| 0 <= i < |ps| && ps[i] == qs[j];
      }
    }
    forall k | k in a ensures b[k] == a[k] {
      if k in Regs(ps) {
        var i :| 0 <= i < |ps| && ps[i].0 == k;
        assert ps[i] in qs;
        var j :| 0 <= j < |qs| && qs[j] == ps[i];
      }
    }
  }
}
