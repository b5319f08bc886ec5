/** rtl/cache/cache.sv: a direct-mapped, write-through, write-around cache of eight
    one-word lines whose hit flag, tag and set are registered. */
module Cache {
  import opened Words
  import opened DataMemory

  type Tag = x: int | 0 <= x < 0x1000

  /** One 45-bit block: valid bit, 12-bit tag, 32-bit word. */
  datatype Line = Line(valid: bool, tag: Tag, data: Word)
  type Lines = s: seq<Line> | |s| == 8 witness seq(8, _ => Line(false, 0, 0))

  datatype CacheState = CacheState(lines: Lines, hit: bool, aTag: Tag, aSet: U3)

  /** The inputs during a cycle; found is the data memory's word at a. */
  datatype Port = Port(we: Lanes, memRead: bool, a: Address, wd: Word, found: Word)

  function TagOf(a: Address): Tag { a / 32 }

  function SetOf(a: Address): U3 { a / 4 % 8 }

  /** The word address that a tag and a set stand for. */
  function LineAddress(tag: Tag, index: U3): Address { tag * 32 + index * 4 }

  /** The registered tag and set name address a. */
  predicate Holds(c: CacheState, a: Address) {
    c.aTag == TagOf(a) && c.aSet == SetOf(a)
  }

  function Read(c: CacheState): Word {
    if c.hit then c.lines[c.aSet].data else 0
  }

  function Merge(held: Word, wd: Word, we: Lanes): Word {
    (if we.we0 then ByteOf(wd, 0) else ByteOf(held, 0))
    + 0x100 * (if we.we1 then ByteOf(wd, 1) else ByteOf(held, 1))
    + 0x1_0000 * (if we.we2 then ByteOf(wd, 2) else ByteOf(held, 2))
    + 0x100_0000 * (if we.we3 then ByteOf(wd, 3) else ByteOf(held, 3))
  }

  predicate Any(we: Lanes) { we.we0 || we.we1 || we.we2 || we.we3 }

  /** Whether the line named by the registered tag and set is present. */
  predicate Present(c: CacheState) {
    c.lines[c.aSet].valid && c.lines[c.aSet].tag == c.aTag
  }

  function NextLines(c: CacheState, p: Port): Lines {
    if c.hit && Any(p.we) then c.lines[c.aSet := Line(true, c.aTag, Merge(c.lines[c.aSet].data, p.wd, p.we))]
    else if !c.hit && p.memRead then c.lines[c.aSet := Line(true, c.aTag, p.found)]
    else c.lines
  }

  /** The rising edge. The new hit flag compares the old tag with the old line. */
  function Edge(c: CacheState, p: Port): CacheState {
    CacheState(NextLines(c, p), Present(c), TagOf(p.a), SetOf(p.a))
  }

  // ------------------------------------------------------------ one edge, exactly

  /** A merged word is the written bytes where their lanes are set, the held ones elsewhere. */
  lemma MergeBytes(held: Word, wd: Word, we: Lanes, i: nat)
    requires i < 4
    ensures ByteOf(Merge(held, wd, we), i) == if Lane(we, i) then ByteOf(wd, i) else ByteOf(held, i)
  {
    hide ByteOf;
    BytesOfSum(if we.we0 then ByteOf(wd, 0) else ByteOf(held, 0),
               if we.we1 then ByteOf(wd, 1) else ByteOf(held, 1),
               if we.we2 then ByteOf(wd, 2) else ByteOf(held, 2),
               if we.we3 then ByteOf(wd, 3) else ByteOf(held, 3));
  }

  /** What any edge does, whether or not the hit is that of the registered address: only the
      registered line changes; a write with hit makes it valid, tags it with the registered tag
      and replaces the bytes whose lanes are set; a read without hit refills it; tag, set and hit
      are those of the port's address, and of the registered line before the edge. */
  lemma EdgeExact(c: CacheState, p: Port)
    ensures var d := Edge(c, p);
      var was, line := c.lines[c.aSet], d.lines[c.aSet];
      && (forall index: U3 :: index != c.aSet ==> d.lines[index] == c.lines[index])
      && (c.hit && (p.we.we0 || p.we.we1 || p.we.we2 || p.we.we3) ==>
            line.valid && line.tag == c.aTag
            && forall i: nat :: i < 4 ==>
              ByteOf(line.data, i) == if Lane(p.we, i) then ByteOf(p.wd, i) else ByteOf(was.data, i))
      && (c.hit && !p.we.we0 && !p.we.we1 && !p.we.we2 && !p.we.we3 ==> line == was)
      && (!c.hit ==> line == if p.memRead then Line(true, c.aTag, p.found) else was)
      && (d.hit <==> was.valid && was.tag == c.aTag)
      && d.aTag == p.a / 32 && d.aSet == p.a / 4 % 8 && Read(c) == if c.hit then was.data else 0
  {
    hide Merge, ByteOf, Lane;
    forall i: nat | i < 4
      ensures ByteOf(Merge(c.lines[c.aSet].data, p.wd, p.we), i) ==
        if Lane(p.we, i) then ByteOf(p.wd, i) else ByteOf(c.lines[c.aSet].data, i)
    {
      MergeBytes(c.lines[c.aSet].data, p.wd, p.we, i);
    }
  }

  // ---------------------------------------------------------------- coherence

  const COLD: Lines := seq(8, _ => Line(false, 0, 0))

  predicate AllInvalid(lines: Lines) {
    forall index: U3 :: !lines[index].valid
  }

  lemma ColdInvalid()
    ensures AllInvalid(COLD)
  {
  }

  predicate LineCoherent(lines: Lines, index: U3, mem: Memory) {
    lines[index].valid ==> lines[index].data == ReadWord(mem, LineAddress(lines[index].tag, index))
  }

  /** Every valid line is the memory word at {tag, set, 00}. */
  predicate Coherent(lines: Lines, mem: Memory) {
    forall index: U3 :: LineCoherent(lines, index, mem)
  }

  /** A refill keeps the cache coherent exactly when the word found is that of the
      registered address, which is the address of an earlier cycle. */
  lemma RefillIff(c: CacheState, p: Port, mem: Memory)
    requires Coherent(c.lines, mem) && !c.hit && p.memRead
    ensures Coherent(Edge(c, p).lines, mem) <==> p.found == ReadWord(mem, LineAddress(c.aTag, c.aSet))
  {
    var lines := Edge(c, p).lines;
    if p.found == ReadWord(mem, LineAddress(c.aTag, c.aSet)) {
      forall index: U3
        ensures LineCoherent(lines, index, mem)
      {
        assert LineCoherent(c.lines, index, mem);
      }
    } else {
      assert !LineCoherent(lines, c.aSet, mem);
    }
  }

  /** A load that misses right after another address was on the port fills the other
      address's line with its own word. */
  lemma RefillOfStaleAddress(mem: Memory, a: Address, b: Address)
    requires a % 4 == 0 && b % 4 == 0 && ReadWord(mem, a) != ReadWord(mem, b)
    ensures var c := CacheState(COLD, false, TagOf(b), SetOf(b));
      Coherent(c.lines, mem) && !Coherent(Edge(c, PortOf(Load(a), mem)).lines, mem)
  {
    hide ReadWord, LineAddress, TagOf, SetOf;
    AddressRoundTrip(b, 0, 0);
    RefillIff(CacheState(COLD, false, TagOf(b), SetOf(b)), PortOf(Load(a), mem), mem);
  }

  lemma AddressRoundTrip(a: Address, tag: Tag, index: U3)
    ensures a % 4 == 0 ==> LineAddress(TagOf(a), SetOf(a)) == a
    ensures TagOf(LineAddress(tag, index)) == tag && SetOf(LineAddress(tag, index)) == index
    ensures LineAddress(tag, index) % 4 == 0 && LineAddress(tag, index) + 3 < SIZE
  {
    var w, b := a / 4, LineAddress(tag, index);
    assert a / 32 == w / 8;
    assert w == 8 * (w / 8) + w % 8;
    assert b / 4 == tag * 8 + index;
    assert b / 32 == tag;
  }

  /** Writing lanes of the aligned word at a changes that word by Merge and no other
      aligned word. */
  lemma WriteAligned(mem: Memory, a: Address, b: Address, wd: Word, we: Lanes)
    requires a % 4 == 0 && b % 4 == 0
    ensures ReadWord(WriteLanes(mem, a, wd, we), b) ==
      if a == b then Merge(ReadWord(mem, b), wd, we) else ReadWord(mem, b)
  {
    hide WriteLanes, ByteOf;
    BytesOfWord(mem, b);
    ByteAfterWrite(mem, a, wd, we, b);
    ByteAfterWrite(mem, a, wd, we, b + 1);
    ByteAfterWrite(mem, a, wd, we, b + 2);
    ByteAfterWrite(mem, a, wd, we, b + 3);
  }

  lemma BytesOfWord(mem: Memory, a: Address)
    requires a % 4 == 0
    ensures var w := ReadWord(mem, a);
      a + 3 < SIZE
      && ByteOf(w, 0) == mem[a] && ByteOf(w, 1) == mem[a + 1] && ByteOf(w, 2) == mem[a + 2]
      && ByteOf(w, 3) == mem[a + 3]
  {
    assert a + 3 < SIZE;
    BytesOfSum(mem[a], mem[a + 1], mem[a + 2], mem[a + 3]);
  }

  // ------------------------------------------------------- the holding protocol

  /** A word-aligned access with the size given by funct3. */
  datatype Access = Load(a: Address) | Store(a: Address, wd: Word, funct3: U3)

  const NO_LANES := Lanes(false, false, false, false)

  function LanesOf(x: Access): Lanes {
    match x
    case Load(_) => NO_LANES
    case Store(_, _, funct3) => WriteEnables(funct3, true)
  }

  function PortOf(x: Access, mem: Memory): Port {
    Port(LanesOf(x), x.Load?, x.a, if x.Store? then x.wd else 0, ReadWord(mem, x.a))
  }

  /** Presenting the address without reading or writing. */
  function IdlePort(a: Address, mem: Memory): Port {
    Port(NO_LANES, false, a, 0, ReadWord(mem, a))
  }

  function Idle(c: CacheState, a: Address, mem: Memory, n: nat): CacheState {
    if n == 0 then c else Edge(Idle(c, a, mem, n - 1), IdlePort(a, mem))
  }

  /** What the access leaves in memory, with no cache involved. */
  function Effect(x: Access, mem: Memory): Memory {
    match x
    case Load(_) => mem
    case Store(a, wd, funct3) => WriteLanes(mem, a, wd, WriteEnables(funct3, true))
  }

  /** FoundData of rtl/risc_v.sv:417 in the cycle of the access. */
  function Found(c: CacheState, x: Access, mem: Memory): Word {
    if c.hit then Read(c) else ReadWord(mem, x.a)
  }

  /** Idle edges with the address held do not change the lines; after two of them the
      registered tag and set are those of the address and hit says whether its line is present. */
  lemma {:induction false} HeldAddress(c: CacheState, a: Address, mem: Memory, n: nat)
    ensures var d := Idle(c, a, mem, n);
      && d.lines == c.lines
      && (n >= 1 ==> Holds(d, a))
      && (n >= 2 ==> d.hit == Present(d))
  {
    if n > 0 {
      HeldAddress(c, a, mem, n - 1);
    }
  }

  /** One access after two or more idle edges: the word found is the memory's and the
      lines stay coherent with the memory it leaves. */
  lemma AccessCorrect(c: CacheState, x: Access, mem: Memory, n: nat)
    requires x.a % 4 == 0 && n >= 2 && Coherent(c.lines, mem)
    ensures var d := Idle(c, x.a, mem, n);
      && Found(d, x, mem) == ReadWord(mem, x.a)
      && Coherent(Edge(d, PortOf(x, mem)).lines, Effect(x, mem))
  {
    hide Idle, ReadWord, WriteLanes, Edge;
    HeldAddress(c, x.a, mem, n);
    HeldAccess(Idle(c, x.a, mem, n), x, mem);
  }

  lemma HeldAccess(d: CacheState, x: Access, mem: Memory)
    requires x.a % 4 == 0 && Holds(d, x.a) && d.hit == Present(d) && Coherent(d.lines, mem)
    ensures Found(d, x, mem) == ReadWord(mem, x.a)
    ensures Coherent(Edge(d, PortOf(x, mem)).lines, Effect(x, mem))
  {
    hide ReadWord, WriteLanes, Edge, Effect, LineAddress, TagOf, SetOf;
    AddressRoundTrip(x.a, 0, 0);
    assert LineCoherent(d.lines, d.aSet, mem);
    forall index: U3
      ensures LineCoherent(Edge(d, PortOf(x, mem)).lines, index, Effect(x, mem))
    {
      LineAfterAccess(d, x, mem, index);
    }
  }

  lemma LineAfterAccess(d: CacheState, x: Access, mem: Memory, index: U3)
    requires x.a % 4 == 0 && Holds(d, x.a) && d.hit == Present(d) && Coherent(d.lines, mem)
    ensures LineCoherent(Edge(d, PortOf(x, mem)).lines, index, Effect(x, mem))
  {
    hide WriteLanes, Merge, ReadWord;
    assert LineCoherent(d.lines, index, mem);
    AddressRoundTrip(x.a, d.lines[index].tag, index);
    if x.Store? {
      WriteAligned(mem, x.a, LineAddress(d.lines[index].tag, index), x.wd, LanesOf(x));
      if !Any(LanesOf(x)) {
        NothingWritten(mem, x.a, x.wd);
      }
    }
  }

  /** A client's accesses, each preceded by some number of idle edges. */
  datatype Held = Held(idle: nat, x: Access)

  /** The words found by a sequence of held accesses, through the cache. */
  function FoundWords(c: CacheState, mem: Memory, hs: seq<Held>): seq<Word>
    decreases |hs|
  {
    if hs == [] then []
    else
      var x := hs[0].x;
      var d := Idle(c, x.a, mem, hs[0].idle);
      (if x.Load? then [Found(d, x, mem)] else [])
      + FoundWords(Edge(d, PortOf(x, mem)), Effect(x, mem), hs[1..])
  }

  /** The words a flat byte memory returns for the same accesses. */
  function FlatWords(mem: Memory, hs: seq<Held>): seq<Word>
    decreases |hs|
  {
    if hs == [] then []
    else
      (if hs[0].x.Load? then [ReadWord(mem, hs[0].x.a)] else [])
      + FlatWords(Effect(hs[0].x, mem), hs[1..])
  }

  /** The index whose line a load is served from after n idle edges at a. */
  function ServedIndex(c: CacheState, a: Address, n: nat): U3 {
    if n == 0 then c.aSet else SetOf(a)
  }

  /** The hit flag then: at first it speaks of earlier addresses, from the second edge on of a. */
  predicate ClaimsHit(c: CacheState, a: Address, n: nat) {
    if n == 0 then c.hit
    else if n == 1 then Present(c)
    else c.lines[SetOf(a)].valid && c.lines[SetOf(a)].tag == TagOf(a)
  }

  /** The memory word the line there stands for. */
  function ServedWord(c: CacheState, a: Address, mem: Memory, n: nat): Word {
    var index := ServedIndex(c, a, n);
    var line := c.lines[index];
    if line.valid then ReadWord(mem, LineAddress(line.tag, index)) else line.data
  }

  /** At any address and after any number of idle edges, a load finds the memory's word
      exactly when no hit is claimed or the line served stands for an equal word. */
  lemma FindsIff(c: CacheState, a: Address, mem: Memory, n: nat)
    requires Coherent(c.lines, mem)
    ensures Found(Idle(c, a, mem, n), Load(a), mem) == ReadWord(mem, a) <==>
      (ClaimsHit(c, a, n) ==> ServedWord(c, a, mem, n) == ReadWord(mem, a))
  {
    hide ReadWord, LineAddress, TagOf, SetOf;
    assert LineCoherent(c.lines, ServedIndex(c, a, n), mem);
    HeldAddress(c, a, mem, n);
    if n == 1 {
      assert Idle(c, a, mem, 1) == Edge(Idle(c, a, mem, 0), IdlePort(a, mem));
    }
  }

  /** So two idle edges suffice for an aligned address; for another they do exactly when its
      line is absent or the aligned word reads the same. */
  lemma TwoEdgesIff(c: CacheState, a: Address, mem: Memory, n: nat)
    requires Coherent(c.lines, mem) && n >= 2
    ensures Found(Idle(c, a, mem, n), Load(a), mem) == ReadWord(mem, a) <==>
      !ClaimsHit(c, a, n) || ReadWord(mem, a - a % 4) == ReadWord(mem, a)
  {
    hide ReadWord, ClaimsHit, Idle, Found;
    FindsIff(c, a, mem, n);
    AlignedAddress(a);
    if ClaimsHit(c, a, n) {
      ClaimedLine(c, a, mem, n);
    }
  }

  lemma ClaimedLine(c: CacheState, a: Address, mem: Memory, n: nat)
    requires n >= 2 && ClaimsHit(c, a, n)
    ensures ServedWord(c, a, mem, n) == ReadWord(mem, a - a % 4)
  {
    hide ReadWord;
    AlignedAddress(a);
  }

  lemma AlignedAddress(a: Address)
    ensures 0 <= a - a % 4 < SIZE && LineAddress(TagOf(a), SetOf(a)) == a - a % 4
  {
    var w := a / 4;
    assert a / 32 == w / 8;
    assert w == 8 * (w / 8) + w % 8;
  }

  /** What the flat memory of the client is: a store changes the bytes from its address on, as
      many as its size, wherever that is; a load changes nothing. */
  lemma EffectBytes(a: Address, wd: Word, funct3: U3, mem: Memory, i: nat)
    requires i < SIZE
    ensures Effect(Store(a, wd, funct3), mem)[i] ==
      if a <= i < a + StoreSize(funct3) then ByteOf(wd, i - a) else mem[i]
    ensures Effect(Load(a), mem) == mem
  {
    hide WriteLanes, ByteOf;
    ByteAfterWrite(mem, a, wd, WriteEnables(funct3, true), i);
  }

  // ------------------------------------------------------------------ stale hits

  /** Byte i of the word that a store with hit leaves in the registered line, and of the memory
      word there. */
  lemma StoredByte(c: CacheState, a: Address, wd: Word, funct3: U3, mem: Memory, i: nat)
    requires a % 4 == 0 && Holds(c, a) && c.hit && 0 < StoreSize(funct3) && i < 4
    ensures var x := Store(a, wd, funct3);
      var line := Edge(c, PortOf(x, mem)).lines[c.aSet];
      && line.valid && line.tag == c.aTag
      && ByteOf(line.data, i) == (if i < StoreSize(funct3) then ByteOf(wd, i) else ByteOf(c.lines[c.aSet].data, i))
      && ByteOf(ReadWord(Effect(x, mem), a), i) == (if i < StoreSize(funct3) then ByteOf(wd, i) else mem[a + i])
  {
    hide Edge, ReadWord, ByteOf, WriteLanes;
    var x := Store(a, wd, funct3);
    EdgeExact(c, PortOf(x, mem));
    BytesOfWord(Effect(x, mem), a);
    StoreBytes(mem, a, wd, funct3, a + i);
  }

  lemma SameBytes(x: Word, y: Word)
    ensures x == y <==> forall i: nat :: i < 4 ==> ByteOf(x, i) == ByteOf(y, i)
  {
    hide ByteOf;
    WordOfBytes(x);
    WordOfBytes(y);
    if forall i: nat :: i < 4 ==> ByteOf(x, i) == ByteOf(y, i) {
      assert ByteOf(x, 0) == ByteOf(y, 0) && ByteOf(x, 1) == ByteOf(y, 1);
      assert ByteOf(x, 2) == ByteOf(y, 2) && ByteOf(x, 3) == ByteOf(y, 3);
    }
  }

  /** The bytes that a store leaves alone are memory's already in the line it goes to. */
  predicate RestAgrees(line: Line, a: Address, funct3: U3, mem: Memory) {
    forall i: nat :: StoreSize(funct3) <= i < 4 ==> ByteOf(line.data, i) == ReadByte(mem, a + i)
  }

  /** A store under a hit, be it of another address: its line becomes the memory word exactly
      when the bytes it leaves alone are memory's already, so always after a whole word. The
      other lines stay as coherent as they were. */
  lemma StoreUnderHitIff(c: CacheState, a: Address, wd: Word, funct3: U3, mem: Memory)
    requires a % 4 == 0 && Holds(c, a) && c.hit && 0 < StoreSize(funct3)
    requires forall index: U3 :: index != c.aSet ==> LineCoherent(c.lines, index, mem)
    ensures var x := Store(a, wd, funct3);
      Coherent(Edge(c, PortOf(x, mem)).lines, Effect(x, mem)) <==> RestAgrees(c.lines[c.aSet], a, funct3, mem)
    ensures funct3 == 2 ==> RestAgrees(c.lines[c.aSet], a, funct3, mem)
  {
    hide Edge, ReadWord, ByteOf, WriteLanes, LineAddress, Effect, Holds;
    var x := Store(a, wd, funct3);
    var lines, after := Edge(c, PortOf(x, mem)).lines, Effect(x, mem);
    OwnLineIff(c, a, wd, funct3, mem);
    forall index: U3 | index != c.aSet
      ensures LineCoherent(lines, index, after)
    {
      OtherLine(c, a, wd, funct3, mem, index);
    }
  }

  lemma OwnLineIff(c: CacheState, a: Address, wd: Word, funct3: U3, mem: Memory)
    requires a % 4 == 0 && Holds(c, a) && c.hit && 0 < StoreSize(funct3)
    ensures var x := Store(a, wd, funct3);
      LineCoherent(Edge(c, PortOf(x, mem)).lines, c.aSet, Effect(x, mem))
      <==> RestAgrees(c.lines[c.aSet], a, funct3, mem)
  {
    hide Edge, ReadWord, ByteOf, WriteLanes, LineAddress, TagOf, SetOf, Effect;
    var x := Store(a, wd, funct3);
    var line := Edge(c, PortOf(x, mem)).lines[c.aSet];
    AddressRoundTrip(a, 0, 0);
    StoredByte(c, a, wd, funct3, mem, 0);
    forall i: nat | i < 4
      ensures ByteOf(line.data, i) == ByteOf(ReadWord(Effect(x, mem), a), i) <==>
        (StoreSize(funct3) <= i ==> ByteOf(c.lines[c.aSet].data, i) == ReadByte(mem, a + i))
    {
      StoredByte(c, a, wd, funct3, mem, i);
    }
    SameBytes(line.data, ReadWord(Effect(x, mem), a));
  }

  lemma OtherLine(c: CacheState, a: Address, wd: Word, funct3: U3, mem: Memory, index: U3)
    requires a % 4 == 0 && Holds(c, a) && index != c.aSet && LineCoherent(c.lines, index, mem)
    ensures var x := Store(a, wd, funct3); LineCoherent(Edge(c, PortOf(x, mem)).lines, index, Effect(x, mem))
  {
    hide Edge, ReadWord, WriteLanes, LineAddress, TagOf, SetOf;
    var x := Store(a, wd, funct3);
    EdgeExact(c, PortOf(x, mem));
    AddressRoundTrip(a, c.lines[index].tag, index);
    WriteAligned(mem, a, LineAddress(c.lines[index].tag, index), wd, LanesOf(x));
  }

  // -------------------------------------------------------------- unaligned accesses

  /** The same access to the aligned word below, which is the one the lines stand for. */
  function Down(x: Access): Access {
    x.(a := x.a - x.a % 4)
  }

  /** Two memories agree on the words that the valid lines stand for. */
  predicate SameOn(lines: Lines, m: Memory, k: Memory) {
    forall index: U3 :: SameAt(lines, index, m, k)
  }

  predicate SameAt(lines: Lines, index: U3, m: Memory, k: Memory) {
    lines[index].valid ==>
      ReadWord(m, LineAddress(lines[index].tag, index)) == ReadWord(k, LineAddress(lines[index].tag, index))
  }

  lemma CoherentIffSame(lines: Lines, m: Memory, k: Memory)
    requires Coherent(lines, k)
    ensures Coherent(lines, m) <==> SameOn(lines, m, k)
  {
    hide ReadWord, LineAddress;
    forall index: U3
      ensures LineCoherent(lines, index, m) <==> SameAt(lines, index, m, k)
    {
      assert LineCoherent(lines, index, k);
    }
  }

  /** The cache takes a store to any address for one to the aligned word below. */
  lemma StoreAsAligned(d: CacheState, x: Access, mem: Memory)
    requires x.Store? && Holds(d, x.a) && d.hit == Present(d) && Coherent(d.lines, mem)
    ensures Coherent(Edge(d, PortOf(x, mem)).lines, Effect(Down(x), mem))
  {
    hide ReadWord, WriteLanes, Coherent, Edge, Effect, Present, TagOf, SetOf;
    DownHolds(d, x);
    HeldAccess(d, Down(x), mem);
    SameStores(d, PortOf(x, mem), PortOf(Down(x), mem));
  }

  lemma DownHolds(d: CacheState, x: Access)
    requires Holds(d, x.a)
    ensures Holds(d, Down(x).a) && Down(x).a % 4 == 0
  {
    hide TagOf, SetOf, LineAddress;
    AlignedAddress(x.a);
    AddressRoundTrip(x.a, TagOf(x.a), SetOf(x.a));
  }

  lemma SameStores(d: CacheState, p: Port, q: Port)
    requires p.we == q.we && p.wd == q.wd && !p.memRead && !q.memRead && d.hit == Present(d)
    ensures Edge(d, p).lines == Edge(d, q).lines
    ensures forall index: U3 ::
      Edge(d, p).lines[index].valid == d.lines[index].valid && Edge(d, p).lines[index].tag == d.lines[index].tag
  {
    hide Merge;
  }

  lemma SameNames(lines: Lines, after: Lines, m: Memory, k: Memory)
    requires forall index: U3 :: after[index].valid == lines[index].valid && after[index].tag == lines[index].tag
    ensures SameOn(after, m, k) <==> SameOn(lines, m, k)
  {
    hide ReadWord, LineAddress;
    forall index: U3
      ensures SameAt(after, index, m, k) <==> SameAt(lines, index, m, k)
    {
    }
  }

  /** A held access to any address keeps the lines coherent exactly when the word refilled reads
      as the aligned word below, and the bytes stored lie as those of an aligned store would
      wherever a line is valid. */
  lemma AccessIff(c: CacheState, x: Access, mem: Memory, n: nat)
    requires n >= 2 && Coherent(c.lines, mem)
    ensures var d := Idle(c, x.a, mem, n);
      Coherent(Edge(d, PortOf(x, mem)).lines, Effect(x, mem)) <==>
        if x.Store? then SameOn(c.lines, Effect(x, mem), Effect(Down(x), mem))
        else ClaimsHit(c, x.a, n) || ReadWord(mem, x.a) == ReadWord(mem, x.a - x.a % 4)
  {
    hide ReadWord, WriteLanes, Edge, Effect, Idle, SameOn, Coherent;
    var d := Idle(c, x.a, mem, n);
    HeldAddress(c, x.a, mem, n);
    if x.Store? {
      var lines := Edge(d, PortOf(x, mem)).lines;
      StoreAsAligned(d, x, mem);
      CoherentIffSame(lines, Effect(x, mem), Effect(Down(x), mem));
      SameStores(d, PortOf(x, mem), PortOf(x, mem));
      SameNames(c.lines, lines, Effect(x, mem), Effect(Down(x), mem));
    } else if ClaimsHit(c, x.a, n) {
      LoadKeeps(d, x, mem);
    } else {
      LoadKeeps(d, x, mem);
      AlignedAddress(x.a);
      RefillIff(d, PortOf(x, mem), mem);
    }
  }

  lemma LoadKeeps(d: CacheState, x: Access, mem: Memory)
    requires x.Load?
    ensures Effect(x, mem) == mem && (d.hit ==> Edge(d, PortOf(x, mem)).lines == d.lines)
  {
  }

  /** A load fits if the word at its address is the one at the aligned address below; a store,
      if memory becomes what the aligned store would make it wherever a line is valid. */
  predicate Fits(lines: Lines, x: Access, mem: Memory) {
    if x.Store? then SameOn(lines, Effect(x, mem), Effect(Down(x), mem))
    else ReadWord(mem, x.a) == ReadWord(mem, x.a - x.a % 4)
  }

  /** A held access to any address finds its word and keeps the lines coherent exactly when it
      fits. */
  lemma FitsIff(c: CacheState, x: Access, mem: Memory, n: nat)
    requires n >= 2 && Coherent(c.lines, mem)
    ensures var d := Idle(c, x.a, mem, n);
      (x.Load? ==> Found(d, x, mem) == ReadWord(mem, x.a)) && Coherent(Edge(d, PortOf(x, mem)).lines, Effect(x, mem))
      <==> Fits(c.lines, x, mem)
  {
    hide ReadWord, Edge, Effect, Idle, SameOn, Coherent, Found, ClaimsHit;
    AccessIff(c, x, mem, n);
    if x.Load? {
      TwoEdgesIff(c, x.a, mem, n);
    }
  }

  /** A byte store that is not word-aligned goes to the lowest byte of the line of its word: it
      fits exactly when that line is absent, or both bytes held the stored value already. */
  lemma ByteMisplacedIff(lines: Lines, mem: Memory, wd: Word, a: Address)
    requires a % 4 != 0
    ensures Fits(lines, Store(a, wd, 0), mem) <==>
      (lines[SetOf(a)].valid && lines[SetOf(a)].tag == TagOf(a) ==>
        mem[a] == wd % 0x100 && mem[a - a % 4] == wd % 0x100)
  {
    hide ReadWord, Effect, LineAddress, TagOf, SetOf, Fits;
    var x := Store(a, wd, 0);
    var m, k, down := Effect(x, mem), Effect(Down(x), mem), a - a % 4;
    AlignedAddress(a);
    FitsAt(lines, x, mem);
    forall index: U3 | index != SetOf(a) || lines[index].tag != TagOf(a)
      ensures SameAt(lines, index, m, k)
    {
      AddressRoundTrip(down, lines[index].tag, index);
      AddressRoundTrip(down, TagOf(a), SetOf(a));
      ElsewhereSame(mem, wd, a, LineAddress(lines[index].tag, index));
    }
    assert SameOn(lines, m, k) <==> SameAt(lines, SetOf(a), m, k);
    ByteWords(mem, wd, a);
  }

  lemma FitsAt(lines: Lines, x: Access, mem: Memory)
    requires x.Store?
    ensures Fits(lines, x, mem) <==> SameOn(lines, Effect(x, mem), Effect(Down(x), mem))
  {
    hide SameOn, Effect;
  }

  /** One byte stored at a and one stored at the aligned address below: other words agree. */
  lemma ElsewhereSame(mem: Memory, wd: Word, a: Address, b: Address)
    requires b % 4 == 0 && b != a - a % 4
    ensures ReadWord(Effect(Store(a, wd, 0), mem), b) == ReadWord(Effect(Down(Store(a, wd, 0)), mem), b)
  {
    hide ByteOf;
    ByteStored(mem, wd, a);
    ByteStored(mem, wd, a - a % 4);
  }

  lemma ByteStored(mem: Memory, wd: Word, a: Address)
    ensures Effect(Store(a, wd, 0), mem) == mem[a := wd % 0x100]
  {
  }

  /** And their own word agrees exactly when both bytes were there already. */
  lemma ByteWords(mem: Memory, wd: Word, a: Address)
    requires a % 4 != 0
    ensures var x := Store(a, wd, 0);
      ReadWord(Effect(x, mem), a - a % 4) == ReadWord(Effect(Down(x), mem), a - a % 4) <==>
      mem[a] == wd % 0x100 && mem[a - a % 4] == wd % 0x100
  {
    hide ReadWord, ByteOf, Effect;
    var m, k, b := Effect(Store(a, wd, 0), mem), Effect(Down(Store(a, wd, 0)), mem), a - a % 4;
    ByteStored(mem, wd, a);
    ByteStored(mem, wd, b);
    BytesOfWord(m, b);
    BytesOfWord(k, b);
    SameBytes(ReadWord(m, b), ReadWord(k, b));
    if mem[a] == wd % 0x100 && mem[b] == wd % 0x100 {
      assert m == k;
    }
  }

  /** A client that holds each address for two idle edges, and whose accesses fit. */
  predicate AllFit(c: CacheState, mem: Memory, hs: seq<Held>)
    decreases |hs|
  {
    hs == [] ||
    var x := hs[0].x;
    && hs[0].idle >= 2 && Fits(c.lines, x, mem)
    && AllFit(Edge(Idle(c, x.a, mem, hs[0].idle), PortOf(x, mem)), Effect(x, mem), hs[1..])
  }

  /** To such a client the cache is invisible: every load returns what a flat memory would. */
  lemma {:induction false} CacheTransparent(c: CacheState, mem: Memory, hs: seq<Held>)
    requires Coherent(c.lines, mem) && AllFit(c, mem, hs)
    ensures FoundWords(c, mem, hs) == FlatWords(mem, hs)
    decreases |hs|
  {
    hide Fits, Coherent, Idle, Edge, ReadWord, Effect, Found;
    if hs != [] {
      var x := hs[0].x;
      FitsIff(c, x, mem, hs[0].idle);
      CacheTransparent(Edge(Idle(c, x.a, mem, hs[0].idle), PortOf(x, mem)), Effect(x, mem), hs[1..]);
    }
  }

  /** A sequence of one load, after any number of idle edges, finds what a flat memory would
      exactly under the condition on the line served. */
  lemma OneLoadIff(c: CacheState, a: Address, mem: Memory, n: nat)
    requires Coherent(c.lines, mem)
    ensures var hs := [Held(n, Load(a))];
      FoundWords(c, mem, hs) == FlatWords(mem, hs) <==>
      (ClaimsHit(c, a, n) ==> ServedWord(c, a, mem, n) == ReadWord(mem, a))
  {
    hide ReadWord, Idle, Found, ClaimsHit, ServedWord, Edge, Effect;
    var x, d := Load(a), Idle(c, a, mem, n);
    OneLoad(c, mem, Held(n, x));
    var found, word := Found(d, x, mem), ReadWord(mem, a);
    assert [found] == [word] <==> [found][0] == [word][0];
    FindsIff(c, a, mem, n);
  }

  lemma OneLoad(c: CacheState, mem: Memory, held: Held)
    requires held.x.Load?
    ensures FoundWords(c, mem, [held]) == [Found(Idle(c, held.x.a, mem, held.idle), held.x, mem)]
    ensures FlatWords(mem, [held]) == [ReadWord(mem, held.x.a)]
  {
    hide ReadWord, Idle, Found, Edge, Effect;
    assert [held][1..] == [];
  }

  lemma AlignedFits(lines: Lines, x: Access, mem: Memory)
    requires x.a % 4 == 0
    ensures Fits(lines, x, mem)
  {
  }

  /** So it is to one that holds each word-aligned address for two idle edges, whatever it
      loads and stores. */
  lemma {:induction false} AlignedFit(c: CacheState, mem: Memory, hs: seq<Held>)
    requires forall i :: 0 <= i < |hs| ==> hs[i].idle >= 2 && hs[i].x.a % 4 == 0
    ensures AllFit(c, mem, hs)
    decreases |hs|
  {
    hide Fits, Idle, Edge, ReadWord, Effect;
    if hs != [] {
      var x := hs[0].x;
      AlignedFits(c.lines, x, mem);
      AlignedFit(Edge(Idle(c, x.a, mem, hs[0].idle), PortOf(x, mem)), Effect(x, mem), hs[1..]);
    }
  }

  /** One idle edge is not enough: hit still speaks of the address before, and a load
      is given the word of whatever line its own set holds. */
  lemma OneIdleEdgeTooFew(mem: Memory, a: Address, b: Address)
    requires a % 4 == 0 && b % 4 == 0 && TagOf(a) != TagOf(b) && SetOf(a) == SetOf(b)
    requires ReadWord(mem, a) != ReadWord(mem, b)
    ensures var c := CacheState(COLD[SetOf(b) := Line(true, TagOf(b), ReadWord(mem, b))], true, TagOf(b), SetOf(b));
      Coherent(c.lines, mem) && Found(Idle(c, a, mem, 1), Load(a), mem) == ReadWord(mem, b)
  {
    hide ReadWord, LineAddress, TagOf, SetOf;
    AddressRoundTrip(b, 0, 0);
    var c := CacheState(COLD[SetOf(b) := Line(true, TagOf(b), ReadWord(mem, b))], true, TagOf(b), SetOf(b));
    assert Idle(c, a, mem, 0) == c;
    assert Idle(c, a, mem, 1) == Edge(c, IdlePort(a, mem));
  }

  // ------------------------------------------------------ a load frozen in M

  /** n edges with the same load on the port. */
  function Wait(c: CacheState, p: Port, n: nat): CacheState {
    if n == 0 then c else Edge(Wait(c, p, n - 1), p)
  }

  /** From any contents and any registered tag and set, hit rises after at most three
      edges of a waiting load; from the second edge on, the word it gives is the memory's. */
  lemma MissStallEnds(c: CacheState, p: Port)
    requires p.memRead && p.we == NO_LANES
    ensures Wait(c, p, 0).hit || Wait(c, p, 1).hit || Wait(c, p, 2).hit || Wait(c, p, 3).hit
    ensures !Wait(c, p, 0).hit && !Wait(c, p, 1).hit && Wait(c, p, 2).hit ==> Read(Wait(c, p, 2)) == p.found
    ensures !Wait(c, p, 0).hit && !Wait(c, p, 1).hit && !Wait(c, p, 2).hit ==> Read(Wait(c, p, 3)) == p.found
    ensures !Wait(c, p, 0).hit && Wait(c, p, 1).hit ==>
      Present(c) && Read(Wait(c, p, 1)) == if SetOf(p.a) == c.aSet then p.found else c.lines[SetOf(p.a)].data
  {
    var c1, c2 := Edge(c, p), Edge(Edge(c, p), p);
    assert Wait(c, p, 0) == c;
    assert Wait(c, p, 1) == c1;
    assert Wait(c, p, 2) == c2;
    assert Wait(c, p, 3) == Edge(c2, p);
  }
}
