/** programs/pdf/pdf.s: the histogram program as loops over the data memory. */
module Pdf {
  import opened Words
  import opened DataMemory

  const BASE_PDF := 0x100
  const BASE_DATA := 0x1_0000
  const MAX_COUNT := 200

  /** More data bytes than the loop can ever read. */
  const MAX_READS := 50945

  /** How many of the first n data bytes equal v. */
  function Count(m: Memory, v: Byte, n: nat): nat
    requires n <= 0x1_0000
  {
    if n == 0 then 0 else Count(m, v, n - 1) + (if m[BASE_DATA + n - 1] == v then 1 else 0)
  }

  /** The counts of the values below k, summed. */
  function Total(m: Memory, n: nat, k: nat): nat
    requires n <= 0x1_0000 && k <= 256
  {
    if k == 0 then 0 else Total(m, n, k - 1) + Count(m, k - 1, n)
  }

  /** The bytes of the histogram area. */
  predicate InBins(i: nat) {
    BASE_PDF <= i < BASE_PDF + 256
  }

  /** Byte i once the bins hold the histogram of the first n data bytes of m. */
  function WithBins(m: Memory, n: nat, i: nat): int
    requires n <= 0x1_0000 && i < SIZE
  {
    if InBins(i) then Count(m, i - BASE_PDF, n) else m[i]
  }

  /** m' is m with the histogram of its first n data bytes in the bins. */
  ghost predicate Histogram(m': Memory, m: Memory, n: nat)
    requires n <= 0x1_0000
  {
    forall i: nat :: i < SIZE ==> m'[i] == WithBins(m, n, i)
  }

  ghost predicate EmptyBins(m: Memory) {
    forall i: nat :: InBins(i) ==> m[i] == 0
  }

  /** No value has reached the maximum among the first n data bytes. */
  ghost predicate AllBelow(m: Memory, n: nat)
    requires n <= 0x1_0000
  {
    forall v: Byte :: Count(m, v, n) < MAX_COUNT
  }

  lemma {:induction false} TotalStep(m: Memory, n: nat, k: nat)
    requires n < 0x1_0000 && k <= 256
    ensures Total(m, n + 1, k) == Total(m, n, k) + (if m[BASE_DATA + n] < k then 1 else 0)
  {
    if k > 0 {
      TotalStep(m, n, k - 1);
    }
  }

  lemma {:induction false} TotalOfNone(m: Memory, k: nat)
    requires k <= 256
    ensures Total(m, 0, k) == 0
  {
    if k > 0 {
      TotalOfNone(m, k - 1);
    }
  }

  /** The bins sum to the number of bytes read. */
  lemma {:induction false} TotalIsReads(m: Memory, n: nat)
    requires n <= 0x1_0000
    ensures Total(m, n, 256) == n
  {
    if n == 0 {
      TotalOfNone(m, 256);
    } else {
      TotalIsReads(m, n - 1);
      TotalStep(m, n - 1, 256);
    }
  }

  lemma {:induction false} TotalBounded(m: Memory, n: nat, k: nat)
    requires n <= 0x1_0000 && k <= 256 && AllBelow(m, n)
    ensures Total(m, n, k) <= (MAX_COUNT - 1) * k
  {
    if k > 0 {
      TotalBounded(m, n, k - 1);
      assert Count(m, k - 1, n) < MAX_COUNT;
    }
  }

  /** Pigeonhole: while every bin is below 200, fewer than 50945 bytes have been read. */
  lemma Pigeonhole(m: Memory, n: nat)
    requires n <= 0x1_0000 && AllBelow(m, n)
    ensures n < MAX_READS
  {
    TotalIsReads(m, n);
    TotalBounded(m, n, 256);
  }

  /** The bins are a function of the data area alone. */
  lemma {:induction false} CountByData(m: Memory, m': Memory, v: Byte, n: nat)
    requires n <= 0x1_0000
    requires forall i: nat :: i < SIZE && !InBins(i) ==> m'[i] == m[i]
    ensures Count(m', v, n) == Count(m, v, n)
  {
    if n > 0 {
      CountByData(m, m', v, n - 1);
    }
  }

  /** n is where the build loop stops: the byte read last brought its bin, the only
      one, to 200. */
  ghost predicate StopsAt(m: Memory, n: nat) {
    && 0 < n <= MAX_READS
    && AllBelow(m, n - 1)
    && Count(m, m[BASE_DATA + n - 1], n) == MAX_COUNT
    && (forall v: Byte :: v != m[BASE_DATA + n - 1] ==> Count(m, v, n) < MAX_COUNT)
  }

  lemma {:induction false} CountMonotone(m: Memory, v: Byte, n: nat, n': nat)
    requires n <= n' <= 0x1_0000
    ensures Count(m, v, n) <= Count(m, v, n')
  {
    if n < n' {
      CountMonotone(m, v, n, n' - 1);
    }
  }

  /** For any data the loop stops, and at one place only. */
  lemma StopsOnce(m: Memory) returns (n: nat)
    ensures StopsAt(m, n)
    ensures forall n': nat :: StopsAt(m, n') ==> n' == n
  {
    n := 0;
    while n < MAX_READS && (n == 0 || Count(m, m[BASE_DATA + n - 1], n) != MAX_COUNT)
      invariant n <= MAX_READS
      invariant n > 0 ==> AllBelow(m, n - 1)
      invariant n > 0 ==> forall v: Byte :: v != m[BASE_DATA + n - 1] ==> Count(m, v, n) < MAX_COUNT
      invariant n > 0 ==> Count(m, m[BASE_DATA + n - 1], n) <= MAX_COUNT
    {
      assert AllBelow(m, n);
      n := n + 1;
      assert Count(m, m[BASE_DATA + n - 1], n - 1) < MAX_COUNT;
      forall v: Byte | v != m[BASE_DATA + n - 1]
        ensures Count(m, v, n) < MAX_COUNT
      {
        assert Count(m, v, n - 1) < MAX_COUNT;
      }
    }
    if Count(m, m[BASE_DATA + n - 1], n) != MAX_COUNT {
      assert AllBelow(m, n);
      Pigeonhole(m, n);
    }
    forall n': nat | StopsAt(m, n')
      ensures n' == n
    {
      StopUnique(m, n, n');
    }
  }

  lemma StopUnique(m: Memory, n: nat, n': nat)
    requires StopsAt(m, n) && StopsAt(m, n')
    ensures n == n'
  {
    if n < n' {
      CountMonotone(m, m[BASE_DATA + n - 1], n, n' - 1);
    } else if n' < n {
      CountMonotone(m, m[BASE_DATA + n' - 1], n', n - 1);
    }
  }

  /** Clearing the bins changes neither the counts nor where the loop stops. */
  lemma SameData(m: Memory, m': Memory, stop: nat)
    requires forall i: nat :: i < SIZE && !InBins(i) ==> m'[i] == m[i]
    requires StopsAt(m, stop)
    ensures StopsAt(m', stop)
    ensures forall m'': Memory :: Histogram(m'', m', stop) ==> Histogram(m'', m, stop)
  {
    forall v: Byte, n: nat | n <= 0x1_0000
      ensures Count(m', v, n) == Count(m, v, n)
    {
      CountByData(m, m', v, n);
    }
    assert m'[BASE_DATA + stop - 1] == m[BASE_DATA + stop - 1];
    forall m'': Memory | Histogram(m'', m', stop)
      ensures Histogram(m'', m, stop)
    {
      forall i: nat | i < SIZE
        ensures m''[i] == WithBins(m, stop, i)
      {
        assert m''[i] == WithBins(m', stop, i);
      }
    }
  }

  // -------------------------------------------------------------- the program

  /** init, programs/pdf/pdf.s:12-18. */
  method Init(mem: array<Byte>)
    requires mem.Length == SIZE
    modifies mem
    ensures forall i :: 0 <= i < SIZE ==> mem[i] == if InBins(i) then 0 else old(mem[i])
    ensures Histogram(mem[..], old(mem[..]), 0)
  {
    var a1 := 0x100;
    while a1 != 0
      invariant 0 <= a1 <= 0x100
      invariant forall i :: 0 <= i < SIZE ==> mem[i] == if BASE_PDF + a1 <= i < BASE_PDF + 256 then 0 else old(mem[i])
      decreases a1
    {
      a1 := a1 - 1;
      mem[BASE_PDF + a1] := 0;
    }
  }

  /** build, programs/pdf/pdf.s:20-34, called with empty bins. */
  method Build(mem: array<Byte>) returns (a2: nat)
    requires mem.Length == SIZE
    requires EmptyBins(mem[..])
    modifies mem
    ensures StopsAt(old(mem[..]), a2)
    ensures Histogram(mem[..], old(mem[..]), a2)
  {
    ghost var m: Memory := mem[..];
    a2 := 0;
    while true
      invariant a2 < MAX_READS
      invariant AllBelow(m, a2) && Histogram(mem[..], m, a2)
      decreases MAX_READS - a2
    {
      ghost var before: Memory := mem[..];
      var a5 := BASE_DATA + a2;
      var t0 := mem[a5];
      var a6 := t0 + BASE_PDF;
      var t1 := mem[a6] + 1;
      BinIncremented(m, a2, before);
      mem[a6] := t1 % 0x100;
      a2 := a2 + 1;
      assert mem[..] == before[a6 := t1];
      if t1 == MAX_COUNT {
        break;
      }
      Pigeonhole(m, a2);
    }
  }

  /** Adding one to the bin of the next byte extends the histogram by that byte. */
  lemma BinIncremented(m: Memory, n: nat, m': Memory)
    requires n < MAX_READS && Histogram(m', m, n) && AllBelow(m, n)
    ensures m'[BASE_DATA + n] == m[BASE_DATA + n]
    ensures var a := BASE_PDF + m[BASE_DATA + n];
      && m'[a] == Count(m, a - BASE_PDF, n) < MAX_COUNT
      && Histogram(m'[a := m'[a] + 1], m, n + 1)
      && if m'[a] + 1 == MAX_COUNT then StopsAt(m, n + 1) else AllBelow(m, n + 1)
  {
    var v := m[BASE_DATA + n];
    assert m'[BASE_DATA + n] == WithBins(m, n, BASE_DATA + n);
    assert m'[BASE_PDF + v] == WithBins(m, n, BASE_PDF + v);
    var m'' := m'[BASE_PDF + v := m'[BASE_PDF + v] + 1];
    forall i: nat | i < SIZE
      ensures m''[i] == WithBins(m, n + 1, i)
    {
      assert m'[i] == WithBins(m, n, i);
    }
    CountsAfter(m, n, n + 1);
    assert BASE_DATA + (n + 1) - 1 == BASE_DATA + n;
  }

  lemma CountsAfter(m: Memory, n: nat, k: nat)
    requires k == n + 1 <= MAX_READS && AllBelow(m, n)
    ensures var v := m[BASE_DATA + n];
      && Count(m, v, k) == Count(m, v, n) + 1 <= MAX_COUNT
      && (forall u: Byte :: u != v ==> Count(m, u, k) < MAX_COUNT)
  {
    var v := m[BASE_DATA + n];
    assert Count(m, v, n) < MAX_COUNT;
    forall u: Byte | u != v
      ensures Count(m, u, k) < MAX_COUNT
    {
      assert Count(m, u, n) < MAX_COUNT;
    }
  }

  /** display, programs/pdf/pdf.s:36-43: the successive values of a0. The loop ends
      when a1 reaches 255, so bin 255 is not shown. */
  method Display(mem: array<Byte>) returns (shown: seq<Byte>)
    requires mem.Length == SIZE
    ensures shown == mem[BASE_PDF..BASE_PDF + 255]
  {
    assert BASE_PDF + 255 <= SIZE;
    shown := [];
    var a1, a2 := 0, 255;
    while true
      invariant 0 <= a1 < a2 == 255
      invariant shown == mem[BASE_PDF..BASE_PDF + a1]
      decreases a2 - a1
    {
      shown := shown + [mem[BASE_PDF + a1]];
      a1 := a1 + 1;
      if a1 == a2 {
        break;
      }
    }
  }
}
