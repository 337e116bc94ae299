// From a request in bytes to a bucket: the arithmetic of malloc in the buddy
// allocator, with 64-bit sizes, the 32-bit argument of log2 and 8-bit buckets.
module BuddySizing {
  import opened Bits
  import opened Prints
  import opened BuddyTree

  const W8 := 0x100
  const W32 := 0x1_0000_0000
  const W64 := 0x1_0000_0000_0000_0000

  // sizeof(list_t)
  const HEADER := 24
  const MAX_BUCKET_COUNT := 27

  // Bitwise and.
  function And(a: nat, b: nat): nat
  {
    if a == 0 then 0 else (if a % 2 == 1 && b % 2 == 1 then 1 else 0) + 2 * And(a / 2, b / 2)
  }

  lemma {:induction false} AndSelf(a: nat)
    ensures And(a, a) == a
  {
    if a != 0 {
      AndSelf(a / 2);
    }
  }

  // The idiom n & (n - 1) finds the powers of two.
  lemma {:induction false} PowerOfTwoTest(n: nat)
    requires n > 0
    ensures FloorLog2(n) >= 0
    ensures And(n, n - 1) == 0 <==> n == Pow2(FloorLog2(n))
    decreases n
  {
    FloorLog2Bounds(n);
    if n % 2 == 1 {
      assert (n - 1) / 2 == n / 2;
      AndSelf(n / 2);
      if n > 1 {
        assert Pow2(FloorLog2(n)) == 2 * Pow2(FloorLog2(n / 2));
      }
    } else {
      assert (n - 1) / 2 == n / 2 - 1;
      PowerOfTwoTest(n / 2);
      assert Pow2(FloorLog2(n)) == 2 * Pow2(FloorLog2(n / 2));
    }
  }

  function BytesNeeded(nbytes: nat): nat
  {
    (nbytes + HEADER) % W64
  }

  // getMinimumSuitableBucket, a size_t.
  function MinimumSuitableBucket(request: nat): nat
  {
    var requestLog2 := FloorLog2(request % W32) % W64;
    if requestLog2 < MIN_ALLOC_LOG2 then 0
    else if request != 0 && And(request, request - 1) == 0 then requestLog2 - MIN_ALLOC_LOG2
    else requestLog2 - MIN_ALLOC_LOG2 + 1
  }

  // The bucket malloc asks for, kept in a uint8_t.
  function IdealBucket(nbytes: nat): nat
  {
    MinimumSuitableBucket(BytesNeeded(nbytes)) % W8
  }

  lemma Pow2Of32()
    ensures Pow2(32) == W32
  {
    assert Pow2(8) == 0x100;
    assert Pow2(16) == 0x1_0000;
    assert Pow2(24) == 0x100_0000;
  }

  lemma SmallMod(k: nat, w: nat)
    requires k < w
    ensures k % w == k
  {
  }

  lemma LogFits(request: nat)
    requires 0 < request < W32
    ensures 0 <= FloorLog2(request) <= 31
    ensures FloorLog2(request % W32) % W64 == FloorLog2(request)
  {
    hide FloorLog2, Pow2;
    SmallMod(request, W32);
    FloorLog2Bounds(request);
    Pow2Of32();
    FloorLog2Upper(request, 32);
    SmallMod(FloorLog2(request), W64);
  }

  // Within the width of log2 the bucket is the least one that is large enough.
  lemma MinimumIsTight(request: nat)
    requires 0 < request < W32
    ensures Size(MinimumSuitableBucket(request)) >= request
    ensures MinimumSuitableBucket(request) > 0 ==> Size(MinimumSuitableBucket(request) - 1) < request
    ensures MinimumSuitableBucket(request) <= 28
  {
    hide FloorLog2, Pow2, And;
    LogFits(request);
    FloorLog2Bounds(request);
    PowerOfTwoTest(request);
    var k := FloorLog2(request);
    if k + 1 < MIN_ALLOC_LOG2 {
      Pow2Monotone(k + 1, MIN_ALLOC_LOG2);
    } else if k > MIN_ALLOC_LOG2 {
      Pow2Monotone(k - 1, k);
    }
  }

  // For a request that survives the addition of the header, malloc's bucket is
  // the least whose blocks hold header and payload, and it is never bucket 0.
  lemma IdealIsTight(nbytes: nat)
    requires 0 < nbytes && nbytes + HEADER < W32
    ensures 1 <= IdealBucket(nbytes) <= 28
    ensures Size(IdealBucket(nbytes) - 1) < nbytes + HEADER <= Size(IdealBucket(nbytes))
  {
    assert Size(0) == 16;
    hide MinimumSuitableBucket, Size;
    SmallMod(nbytes + HEADER, W64);
    MinimumIsTight(nbytes + HEADER);
    SmallMod(MinimumSuitableBucket(nbytes + HEADER), W8);
  }

  // So the buckets from it on are exactly the ones with room.
  lemma IdealIsLeast(nbytes: nat, c: nat)
    requires 0 < nbytes && nbytes + HEADER < W32
    ensures IdealBucket(nbytes) <= c <==> nbytes + HEADER <= Size(c)
  {
    hide IdealBucket;
    IdealIsTight(nbytes);
    if IdealBucket(nbytes) < c {
      Pow2Monotone(MIN_ALLOC_LOG2 + IdealBucket(nbytes), MIN_ALLOC_LOG2 + c);
    } else if c < IdealBucket(nbytes) - 1 {
      Pow2Monotone(MIN_ALLOC_LOG2 + c, MIN_ALLOC_LOG2 + (IdealBucket(nbytes) - 1));
    }
  }

  // malloc's first guard lets a request through.
  predicate Admitted(nbytes: nat, heapSize: nat)
  {
    nbytes != 0 && BytesNeeded(nbytes) <= heapSize + 1
  }

  // Among the requests that pass the guard and name an existing bucket, that
  // bucket has room for header and payload exactly when adding the header did
  // not wrap around.
  lemma RoomIffNoWrap(nbytes: nat, heapSize: nat)
    requires nbytes < W64 && heapSize < W32 - 1 && Admitted(nbytes, heapSize)
    requires IdealBucket(nbytes) < MAX_BUCKET_COUNT
    ensures Size(IdealBucket(nbytes)) >= nbytes + HEADER <==> nbytes + HEADER < W64
  {
    if nbytes + HEADER < W64 {
      IdealIsTight(nbytes);
    } else {
      Pow2Of32();
      if MIN_ALLOC_LOG2 + IdealBucket(nbytes) < 32 {
        Pow2Monotone(MIN_ALLOC_LOG2 + IdealBucket(nbytes), 32);
      }
    }
  }

  // A request so large that adding the header wraps is admitted and served from
  // bucket 0, whose blocks do not even hold the header.
  lemma WrapExample(heapSize: nat)
    requires 32 <= heapSize
    ensures Admitted(W64 - 8, heapSize) && IdealBucket(W64 - 8) == 0 && Size(0) < HEADER
  {
    assert BytesNeeded(W64 - 8) == 16;
    assert FloorLog2(16) == 4;
    assert And(16, 15) == 0;
    assert Size(0) == 16;
  }
}
