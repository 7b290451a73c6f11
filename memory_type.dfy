/** Memory-type selection, `getMemoryTypeIndex`.

    A device reports up to 32 memory types, each with a mask of property flags. A resource accepts a
    subset of them, given as the bit mask `typeBits`. The search returns the first memory type the
    resource accepts whose flags contain every requested property, and 0 when there is none. The
    flags the driver would report are a parameter here. */
module MemoryType {
  import opened Common

  /** `VK_MAX_MEMORY_TYPES`: the size of the driver's memory-type array. */
  const MaxMemoryTypes: nat := 32

  /** `bits` after `n` single right shifts: what the loop's `typeBits >>= 1` leaves after `n`
      memory types. */
  function ShiftedRight(bits: bv32, n: nat): bv32
  {
    if n == 0 then bits else ShiftedRight(bits, n - 1) >> 1
  }

  /** One more shift of the loop. */
  lemma ShiftedStep(bits: bv32, n: nat)
    ensures ShiftedRight(bits, n + 1) == ShiftedRight(bits, n) >> 1
  {
  }

  /** Bit `i` of `bits`: the lowest bit once the `i` bits below it are shifted out. */
  predicate BitSet(bits: bv32, i: nat)
  {
    ShiftedRight(bits, i) & 1 == 1
  }

  /** Memory type `i` is accepted by the resource and carries every requested property. */
  predicate Suitable(memoryTypes: seq<bv32>, typeBits: bv32, properties: bv32, i: nat)
    requires i < |memoryTypes| <= MaxMemoryTypes
  {
    BitSet(typeBits, i) && memoryTypes[i] & properties == properties
  }

  /** The first suitable memory type at or after `from`, if any. */
  function FirstSuitable(memoryTypes: seq<bv32>, typeBits: bv32, properties: bv32, from: nat): (r: Option<nat>)
    requires |memoryTypes| <= MaxMemoryTypes && from <= |memoryTypes|
    ensures r.Some? ==>
      && from <= r.value < |memoryTypes|
      && Suitable(memoryTypes, typeBits, properties, r.value)
      && forall j :: from <= j < r.value ==> !Suitable(memoryTypes, typeBits, properties, j)
    ensures r.None? ==>
      forall j :: from <= j < |memoryTypes| ==> !Suitable(memoryTypes, typeBits, properties, j)
    decreases |memoryTypes| - from
  {
    if from == |memoryTypes| then None
    else if Suitable(memoryTypes, typeBits, properties, from) then Some(from)
    else FirstSuitable(memoryTypes, typeBits, properties, from + 1)
  }

  /** The index `getMemoryTypeIndex` returns: the least suitable memory type, or 0 when no memory
      type is suitable. */
  function MemoryTypeIndex(memoryTypes: seq<bv32>, typeBits: bv32, properties: bv32): (index: nat)
    requires |memoryTypes| <= MaxMemoryTypes
    ensures (exists i :: 0 <= i < |memoryTypes| && Suitable(memoryTypes, typeBits, properties, i)) ==>
      && index < |memoryTypes|
      && Suitable(memoryTypes, typeBits, properties, index)
      && forall j :: 0 <= j < index ==> !Suitable(memoryTypes, typeBits, properties, j)
    ensures (forall i :: 0 <= i < |memoryTypes| ==> !Suitable(memoryTypes, typeBits, properties, i)) ==>
      index == 0
  {
    match FirstSuitable(memoryTypes, typeBits, properties, 0)
    case Some(i) => i
    case None => 0
  }

  /** The search loop: `typeBits` is shifted right once per memory type, so that bit 0 of the
      shifted mask is bit `i` of the original one. */
  method GetMemoryTypeIndex(memoryTypes: seq<bv32>, typeBits: bv32, properties: bv32) returns (index: nat)
    requires |memoryTypes| <= MaxMemoryTypes
    ensures index == MemoryTypeIndex(memoryTypes, typeBits, properties)
  {
    var bits := typeBits;
    var i: nat := 0;
    while i < |memoryTypes|
      invariant i <= |memoryTypes|
      invariant bits == ShiftedRight(typeBits, i)
      invariant FirstSuitable(memoryTypes, typeBits, properties, 0)
        == FirstSuitable(memoryTypes, typeBits, properties, i)
    {
      SearchStep(memoryTypes, typeBits, properties, i);
      if bits & 1 == 1 {
        if memoryTypes[i] & properties == properties {
          return i;
        }
      }
      ShiftedStep(typeBits, i);
      bits := bits >> 1;
      i := i + 1;
    }
    return 0;
  }

  /** One step of the search: the lowest bit of the shifted mask and the flags of memory type `i`
      decide whether the search stops at `i` or goes on from `i + 1`. */
  lemma SearchStep(memoryTypes: seq<bv32>, typeBits: bv32, properties: bv32, i: nat)
    requires i < |memoryTypes| <= MaxMemoryTypes
    ensures ShiftedRight(typeBits, i) & 1 == 1 && memoryTypes[i] & properties == properties ==>
      FirstSuitable(memoryTypes, typeBits, properties, i) == Some(i)
    ensures !(ShiftedRight(typeBits, i) & 1 == 1 && memoryTypes[i] & properties == properties) ==>
      FirstSuitable(memoryTypes, typeBits, properties, i) == FirstSuitable(memoryTypes, typeBits, properties, i + 1)
  {
  }

  /** A result of 0 does not tell a match at index 0 from no match at all: 0 comes back exactly
      when memory type 0 is suitable or no memory type is. */
  lemma ZeroIsAmbiguous(memoryTypes: seq<bv32>, typeBits: bv32, properties: bv32)
    requires |memoryTypes| <= MaxMemoryTypes
    ensures MemoryTypeIndex(memoryTypes, typeBits, properties) == 0 <==>
      || (|memoryTypes| > 0 && Suitable(memoryTypes, typeBits, properties, 0))
      || (forall i :: 0 <= i < |memoryTypes| ==> !Suitable(memoryTypes, typeBits, properties, i))
  {
    var r := FirstSuitable(memoryTypes, typeBits, properties, 0);
    if r.Some? && r.value > 0 {
      assert Suitable(memoryTypes, typeBits, properties, r.value);
    }
  }
}
