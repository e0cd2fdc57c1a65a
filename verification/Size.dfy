/** Size classes: the 208 block sizes, and the maps between a requested size, its class and the
    size of the blocks of a class. */
module Size {
  const MAX_ARRAY_SIZE: nat := 208
  const MAX_MEMORY_SIZE: nat := 262144

  function IndexToSize(index: nat): nat {
    if index <= 15 then (index + 1) * 8
    else if index <= 71 then 128 + 16 * (index - 15)
    else if index <= 127 then 1024 + 128 * (index - 71)
    else if index <= 183 then 8192 + 1024 * (index - 127)
    else if index <= 207 then 65536 + 8192 * (index - 183)
    else 0
  }

  /** The class of a size; the source reads sizes from 1 on. */
  function SizeToIndex(size: nat): int {
    if size <= 128 then (size + 7) / 8 - 1
    else if size <= 1024 then 16 + (size - 129) / 16
    else if size <= 8192 then 72 + (size - 1025) / 128
    else if size <= 65536 then 128 + (size - 8193) / 1024
    else if size <= 262144 then 184 + (size - 65537) / 8192
    else 0
  }

  /** size rounded up to a multiple of step, a power of two. */
  function AlignUp(size: nat, step: nat): nat
    requires step > 0
  {
    (size + step - 1) / step * step
  }

  /** Distance between the classes around a size. */
  function Step(size: nat): nat {
    if size <= 128 then 8
    else if size <= 1024 then 16
    else if size <= 8192 then 128
    else if size <= 65536 then 1024
    else 8192
  }

  function RoundUp(size: nat): nat {
    AlignUp(size, Step(size))
  }

  /** The class found from the rounded size is the one found from the request, and holds it. */
  lemma ClassFits(size: nat)
    requires 1 <= size <= MAX_MEMORY_SIZE
    ensures var index := SizeToIndex(RoundUp(size));
            && 0 <= index < MAX_ARRAY_SIZE && SizeToIndex(size) == index
            && IndexToSize(index) == RoundUp(size) && size <= RoundUp(size)
  {}

  lemma RoundUpBound(size: nat)
    ensures RoundUp(size) < size + Step(size)
  {}

  lemma StepBelow(size: nat)
    requires 1 <= size <= MAX_MEMORY_SIZE && 1 <= SizeToIndex(size) < MAX_ARRAY_SIZE
    ensures IndexToSize(SizeToIndex(size) - 1) + Step(size) == IndexToSize(SizeToIndex(size))
  {}

  /** A request is served from the class with the smallest blocks that hold it. */
  lemma ClassOfRequest(size: nat)
    requires 1 <= size <= MAX_MEMORY_SIZE
    ensures 0 <= SizeToIndex(RoundUp(size)) < MAX_ARRAY_SIZE
    ensures forall j: nat :: j < MAX_ARRAY_SIZE ==> (size <= IndexToSize(j) <==> SizeToIndex(RoundUp(size)) <= j)
  {
    ClassFits(size);
    var index: nat := SizeToIndex(RoundUp(size));
    if index > 0 {
      RoundUpBound(size);
      StepBelow(size);
    }
    hide RoundUp, SizeToIndex, IndexToSize;
    forall j: nat | j < MAX_ARRAY_SIZE ensures size <= IndexToSize(j) <==> index <= j {
      if j < index {
        SizesIncrease(j, index - 1);
      } else {
        SizesIncrease(index, j);
      }
    }
  }

  lemma StepSmall(size: nat)
    requires 1 <= size <= MAX_MEMORY_SIZE
    ensures Step(size) <= 8 || 8 * (Step(size) - 1) < size
  {}

  lemma SizesAligned(index: nat)
    ensures IndexToSize(index) % 8 == 0
  {}

  /** Rounding up wastes at most seven bytes, or less than an eighth of the request, and gives a
      multiple of eight. */
  lemma WasteBounded(size: nat)
    requires 1 <= size <= MAX_MEMORY_SIZE
    ensures var block := IndexToSize(SizeToIndex(RoundUp(size)));
            size <= block && block % 8 == 0 && (block <= size + 7 || 8 * (block - size) < size)
  {
    hide SizeToIndex, IndexToSize, RoundUp, Step;
    ClassFits(size);
    RoundUpBound(size);
    StepSmall(size);
    SizesAligned(SizeToIndex(RoundUp(size)));
  }

  lemma SizesIncrease(i: nat, j: nat)
    requires i <= j < MAX_ARRAY_SIZE
    ensures i < j ==> IndexToSize(i) < IndexToSize(j)
    ensures 8 <= IndexToSize(i) <= IndexToSize(j) <= MAX_MEMORY_SIZE
  {}

  lemma IndexRoundTrip(index: nat)
    requires index < MAX_ARRAY_SIZE
    ensures SizeToIndex(IndexToSize(index)) == index && RoundUp(IndexToSize(index)) == IndexToSize(index)
  {}
}
