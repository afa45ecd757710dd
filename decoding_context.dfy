/**
 A decoding context: information about the state of the program that is not
 in the instruction bytes but decides how they decode (the thumb-mode flag on
 ARM, say). In C++ it is a value type; here it is a class, so a Dafny
 assignment shares the object, and a copy is made explicitly with Copy (the
 implicit copy constructor) or by the copying const operations. Its one field
 maps context-register names to 64-bit values. Two in-place mutators change
 that field; the const operations query it or return a new context and leave
 the receiver as it was.
 */
module Context {
  import opened ContextMap

  class DecodingContext {
    var context_value: ContextValues

    /** The default constructor: no register has a value. */
    constructor ()
      ensures GetContextValues() == map[]
      ensures forall creg :: !HasValueForReg(creg)
    {
      context_value := map[];
    }

    /** Construction from a complete map; the context keeps its own copy. */
    constructor FromValues(context_value: ContextValues)
      ensures GetContextValues() == context_value
    {
      this.context_value := context_value;
    }

    /**
     `operator==`: two contexts are equal exactly when every register is set
     in both or in neither, and every register set in both holds one value.
     */
    predicate Equals(rhs: DecodingContext)
      reads this, rhs
      ensures Equals(rhs) <==> context_value.Items == rhs.context_value.Items
    {
      ItemsDetermineMap(context_value, rhs.context_value);
      context_value == rhs.context_value
    }

    /**
     The implicit copy constructor: a new, independent object with the same
     values. Later edits to either object do not reach the other.
     */
    method Copy() returns (r: DecodingContext)
      ensures fresh(r)
      ensures r.context_value == context_value
      ensures r.Equals(this)
    {
      r := new DecodingContext.FromValues(context_value);
    }

    /** In place: set `creg` to `value`, inserting or overwriting. */
    method UpdateContextReg(creg: string, value: uint64)
      modifies this
      ensures context_value == Put(old(context_value), creg, value)
      ensures HasValueForReg(creg) && GetContextValue(creg) == value
    {
      context_value := context_value[creg := value];
    }

    /** In place: forget `creg`; nothing happens when it is not set. */
    method DropReg(creg: string)
      modifies this
      ensures context_value == Without(old(context_value), creg)
      ensures !HasValueForReg(creg)
    {
      context_value := context_value - {creg};
    }

    /** Whether `creg` has a value in this context. */
    predicate HasValueForReg(creg: string)
      reads this
      ensures HasValueForReg(creg) <==> exists v :: (creg, v) in context_value.Items
    {
      assert creg in context_value ==> (creg, context_value[creg]) in context_value.Items;
      creg in context_value
    }

    /**
     The value of `creg`. Only defined when the register is set, so that an
     unset register is never mistaken for one that holds 0.
     */
    function GetContextValue(creg: string): (v: uint64)
      reads this
      requires HasValueForReg(creg)
      ensures (creg, v) in context_value.Items
    {
      context_value[creg]
    }

    /** A new context with `creg` set to `value`; the receiver is unchanged. */
    method PutContextReg(creg: string, value: uint64) returns (r: DecodingContext)
      ensures fresh(r)
      // Documents `const`: with no modifies clause this also follows from framing.
      ensures context_value == old(context_value)
      ensures r.context_value == Put(context_value, creg, value)
      ensures r.HasValueForReg(creg) && r.GetContextValue(creg) == value
    {
      r := new DecodingContext.FromValues(context_value);
      r.UpdateContextReg(creg, value);
    }

    /** A new context without `creg`; the receiver is unchanged. */
    method ContextWithoutRegister(creg: string) returns (r: DecodingContext)
      ensures fresh(r)
      // Documents `const`: with no modifies clause this also follows from framing.
      ensures context_value == old(context_value)
      ensures r.context_value == Without(context_value, creg)
      ensures !r.HasValueForReg(creg)
    {
      r := new DecodingContext.FromValues(context_value);
      r.DropReg(creg);
    }

    /** The whole key/value snapshot: exactly the registers that are set, with their values. */
    function GetContextValues(): (m: ContextValues)
      reads this
      ensures forall creg :: creg in m <==> HasValueForReg(creg)
      ensures forall creg :: creg in m ==> m[creg] == GetContextValue(creg)
    {
      context_value
    }
  }

  /**
   `operator==` compares what the contexts say, register by register: two
   contexts are equal exactly when every register is set in both or in
   neither, and every register set in both holds one value.
   */
  lemma EqualsIffSameRegisters(a: DecodingContext, b: DecodingContext)
    ensures a.Equals(b) <==>
      && (forall creg :: a.HasValueForReg(creg) <==> b.HasValueForReg(creg))
      && (forall creg :: a.HasValueForReg(creg) && b.HasValueForReg(creg) ==>
            a.GetContextValue(creg) == b.GetContextValue(creg))
  {
    if && (forall creg :: a.HasValueForReg(creg) <==> b.HasValueForReg(creg))
       && (forall creg :: a.HasValueForReg(creg) && b.HasValueForReg(creg) ==>
             a.GetContextValue(creg) == b.GetContextValue(creg))
    {
      forall creg ensures creg in a.context_value <==> creg in b.context_value {
        assert a.HasValueForReg(creg) <==> b.HasValueForReg(creg);
      }
      forall creg | creg in a.context_value ensures a.context_value[creg] == b.context_value[creg] {
        assert a.GetContextValue(creg) == b.GetContextValue(creg);
      }
    }
  }

  /** `operator==` is an equivalence relation. */
  lemma EqualsIsEquivalence(a: DecodingContext, b: DecodingContext, c: DecodingContext)
    ensures a.Equals(a)
    ensures a.Equals(b) ==> b.Equals(a)
    ensures a.Equals(b) && b.Equals(c) ==> a.Equals(c)
  {
  }

  /**
   In-place update and copying put agree: a copy made with PutContextReg
   equals the receiver after UpdateContextReg with the same arguments, and
   the copy is a separate object that the update does not touch.
   */
  method UpdateAgreesWithPut(c: DecodingContext, creg: string, value: uint64) returns (copy: DecodingContext)
    modifies c
    ensures fresh(copy)
    ensures copy.Equals(c)
    ensures c.context_value == Put(old(c.context_value), creg, value)
  {
    copy := c.PutContextReg(creg, value);
    c.UpdateContextReg(creg, value);
  }

  /**
   In-place removal and copying removal agree: a copy made with
   ContextWithoutRegister equals the receiver after DropReg.
   */
  method DropAgreesWithWithout(c: DecodingContext, creg: string) returns (copy: DecodingContext)
    modifies c
    ensures fresh(copy)
    ensures copy.Equals(c)
    ensures c.context_value == Without(old(c.context_value), creg)
  {
    copy := c.ContextWithoutRegister(creg);
    c.DropReg(creg);
  }

  /**
   Copying before mutating keeps the two objects apart: an update to the copy
   leaves the original's values as they were.
   */
  method UpdateCopy(c: DecodingContext, creg: string, value: uint64) returns (d: DecodingContext)
    ensures fresh(d)
    ensures c.context_value == old(c.context_value)
    ensures d.context_value == Put(c.context_value, creg, value)
  {
    d := c.Copy();
    d.UpdateContextReg(creg, value);
  }

  /**
   A decoder forking one context into two successors: each successor is an
   independent copy, the original keeps its values, and the two successors
   differ only in the forked register.
   */
  method ForkSuccessors(c: DecodingContext, creg: string, v1: uint64, v2: uint64)
    returns (s1: DecodingContext, s2: DecodingContext)
    requires v1 != v2
    ensures fresh(s1) && fresh(s2) && s1 != s2
    // Stated for the reader: with no modifies clause this also follows from framing.
    ensures c.context_value == old(c.context_value)
    ensures s1.HasValueForReg(creg) && s2.HasValueForReg(creg)
    ensures s1.GetContextValue(creg) == v1 && s2.GetContextValue(creg) == v2
    ensures !s1.Equals(s2)
    ensures Without(s1.context_value, creg) == Without(s2.context_value, creg)
  {
    s1 := c.PutContextReg(creg, v1);
    s2 := c.PutContextReg(creg, v2);
  }

  /**
   Entering and leaving thumb mode: starting empty, a copy with "thumb" set
   to 1 reports 1, the empty original still has no "thumb", and removing
   "thumb" from the copy gives a context equal to the original.
   */
  method ThumbModeScenario() returns (c0: DecodingContext, c1: DecodingContext, c2: DecodingContext)
    ensures c1.HasValueForReg("thumb") && c1.GetContextValue("thumb") == 1
    ensures !c0.HasValueForReg("thumb")
    ensures c2.Equals(c0)
  {
    c0 := new DecodingContext();
    c1 := c0.PutContextReg("thumb", 1);
    c2 := c1.ContextWithoutRegister("thumb");
  }
}
