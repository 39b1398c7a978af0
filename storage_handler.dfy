/**
 * The storage router and erase planner of storageHandler.c:
 * `read_storage` and `write_storage` route a logical region to a backend
 * call, and `erase_storage` turns a region into block and sector erases.
 *
 * The build-time choice `USE_EXT_EEPROM` is the constant `backend`; the
 * device profile (region addresses, DEVICE_APP_SIZE, BLOCK_SIZE,
 * SECT_SIZE) is the constant `layout`. The backend drivers are not part of
 * this model: each call is recorded in the ghost trace and acts on an
 * abstract byte map, where an absent address reads as an erased 0xFF. A
 * flash write programs its bytes, which can only clear bits, so only an
 * erased byte takes the written value; an EEPROM write overwrites. A write
 * returns the count of its bytes and a read the requested count.
 */
module StorageHandler {
  import opened CTypes

  /** The value an erased byte reads as. */
  const ERASED: bv8 := 0xFF

  /** teDATASTORAGE, with `Unknown` for any other selector value. */
  datatype Region = Mac | Config | AppMain | AppBackup | Unknown

  /** Which backend holds the MAC and configuration data (USE_EXT_EEPROM). */
  datatype Backend = Flash | ExtEeprom

  datatype Device = FlashMem | Eeprom

  /** The per-device profile. */
  datatype Layout = Layout(
    macAddr: uint32,        // DEVICE_MAC_ADDR
    configAddr: uint32,     // DEVICE_CONFIG_ADDR
    appMainAddr: uint32,    // DEVICE_APP_MAIN_ADDR
    appBackupAddr: uint32,  // DEVICE_APP_BACKUP_ADDR
    appSize: uint32,        // DEVICE_APP_SIZE
    blockSize: uint32,      // BLOCK_SIZE
    sectSize: uint32)       // SECT_SIZE

  /** Erase granularities: a block is larger than a sector. */
  predicate ValidLayout(l: Layout)
  {
    l.blockSize > l.sectSize > 0
  }

  /** One backend call. */
  datatype NvmOp =
    | ReadOp(dev: Device, addr: nat, len: nat)            // read_flash / read_eeprom
    | WriteOp(dev: Device, addr: nat, bytes: seq<bv8>)    // write_flash / write_eeprom
    | EraseBlockOp(addr: nat)                             // erase_flash_block
    | EraseSectorOp(addr: nat)                            // erase_flash_sector
    | EraseEepromOp(addr: nat)                            // erase_eeprom

  /** The contents of both media; an address not in a map is erased. */
  datatype Nvm = Nvm(flash: map<nat, bv8>, eeprom: map<nat, bv8>)

  /** The result of a storage call: the value, or an explicit error for an unknown region. */
  datatype Outcome<T> = Done(value: T) | InvalidRegion

  /** The byte stored at address k. */
  function Cell(m: map<nat, bv8>, k: nat): bv8
  {
    if k in m then m[k] else ERASED
  }

  /** read_flash / read_eeprom: `len` stored bytes from address a. */
  function ReadBytes(m: map<nat, bv8>, a: nat, len: nat): seq<bv8>
  {
    seq(len, i requires 0 <= i < len => Cell(m, a + i))
  }

  /** write_eeprom: an EEPROM byte is overwritten whatever it held. */
  function WriteBytes(m: map<nat, bv8>, a: nat, d: seq<bv8>): (r: map<nat, bv8>)
    decreases |d|
    ensures forall k :: a <= k < a + |d| ==> k in r && r[k] == d[k - a]
    ensures forall k :: !(a <= k < a + |d|) ==> (k in r <==> k in m) && (k in m ==> r[k] == m[k])
  {
    if d == [] then m
    else
      var r := WriteBytes(m[a := d[0]], a + 1, d[1..]);
      assert forall k :: a < k < a + |d| ==> r[k] == d[1..][k - (a + 1)];
      r
  }

  /**
   * write_flash: programming can only clear bits, so each flash byte
   * becomes the AND of what it held and the byte written; only an erased
   * byte takes the written value.
   */
  function ProgramBytes(m: map<nat, bv8>, a: nat, d: seq<bv8>): (r: map<nat, bv8>)
    decreases |d|
    ensures forall k :: a <= k < a + |d| ==> k in r && r[k] == Programmed(Cell(m, k), d[k - a])
    ensures forall k :: !(a <= k < a + |d|) ==> (k in r <==> k in m) && (k in m ==> r[k] == m[k])
  {
    if d == [] then m
    else
      var m1 := m[a := Programmed(Cell(m, a), d[0])];
      var r := ProgramBytes(m1, a + 1, d[1..]);
      assert a in r && r[a] == m1[a];
      assert forall k :: a < k < a + |d| ==> Cell(m1, k) == Cell(m, k) && d[1..][k - (a + 1)] == d[k - a];
      r
  }

  /** A flash byte holding `held` after `b` is programmed into it. */
  function Programmed(held: bv8, b: bv8): bv8
  {
    held & b
  }

  /** An erase: the `len` bytes from a become erased. */
  function Blank(m: map<nat, bv8>, a: nat, len: nat): map<nat, bv8>
  {
    map k | k in m && !(a <= k < a + len) :: m[k]
  }

  /** The effect of one backend call on the media. */
  function Apply(l: Layout, s: Nvm, op: NvmOp): Nvm
  {
    match op
    case ReadOp(_, _, _) => s
    case WriteOp(dev, a, d) =>
      if dev == FlashMem then s.(flash := ProgramBytes(s.flash, a, d)) else s.(eeprom := WriteBytes(s.eeprom, a, d))
    case EraseBlockOp(a) => s.(flash := Blank(s.flash, a, l.blockSize))
    case EraseSectorOp(a) => s.(flash := Blank(s.flash, a, l.sectSize))
    case EraseEepromOp(_) => s
  }

  /** The effect of a sequence of backend calls, in order. */
  function ApplyAll(l: Layout, s: Nvm, ops: seq<NvmOp>): Nvm
    decreases |ops|
  {
    if ops == [] then s else Apply(l, ApplyAll(l, s, ops[..|ops| - 1]), ops[|ops| - 1])
  }

  /** What a backend call returns: the requested count for a read or a write. */
  function Returned(op: NvmOp): nat
  {
    match op
    case ReadOp(_, _, len) => len
    case WriteOp(_, _, d) => |d|
    case _ => 0
  }

  /** The bytes a backend call delivers into the caller's buffer. */
  function Fetched(s: Nvm, op: NvmOp): seq<bv8>
  {
    match op
    case ReadOp(dev, a, len) => ReadBytes(if dev == FlashMem then s.flash else s.eeprom, a, len)
    case _ => []
  }

  predicate IsErase(op: NvmOp)
  {
    op.EraseBlockOp? || op.EraseSectorOp? || op.EraseEepromOp?
  }

  /** The medium of the MAC and configuration regions. */
  function FixedDevice(b: Backend): Device
  {
    if b == Flash then FlashMem else Eeprom
  }

  /** The fixed address of the MAC or configuration region. */
  function FixedAddr(l: Layout, region: Region): uint32
    requires region == Mac || region == Config
  {
    if region == Mac then l.macAddr else l.configAddr
  }

  /** The base of an application region. */
  function AppBase(l: Layout, region: Region): uint32
    requires region == AppMain || region == AppBackup
  {
    if region == AppMain then l.appMainAddr else l.appBackupAddr
  }

  /**
   * The products of erase_storage (BLOCK_SIZE * i, blocks * BLOCK_SIZE,
   * SECT_SIZE * i), and its quotients DEVICE_APP_SIZE / BLOCK_SIZE and
   * remainder / SECT_SIZE. Div is written by repeated subtraction and
   * specified as floor division, so that the erase proofs need no
   * nonlinear reasoning about `/`.
   */
  function Mul(a: nat, n: nat): nat
  {
    a * n
  }

  function Div(s: nat, c: nat): (q: nat)
    requires c > 0
    ensures Mul(c, q) <= s < Mul(c, q) + c
    decreases s
  {
    if s < c then 0 else 1 + Div(s - c, c)
  }

  /** s mod c */
  function Rem(s: nat, c: nat): (r: nat)
    requires c > 0
    ensures r < c
  {
    s - Mul(c, Div(s, c))
  }

  /**
   * x reduced modulo m, by repeated subtraction: the value an unsigned C
   * variable of m values keeps when x is stored in it.
   */
  function Truncate(x: nat, m: nat): (r: nat)
    requires m > 0
    ensures r < m
    decreases x
  {
    if x < m then x else Truncate(x - m, m)
  }

  /** A 32-bit address computation. */
  function Wrap32(x: nat): uint32
  {
    Truncate(x, 0x1_0000_0000)
  }

  /** The `uint8_t blocks` of erase_storage: the block count, truncated to 8 bits. */
  function Blocks(l: Layout): nat
    requires ValidLayout(l)
  {
    Truncate(Div(l.appSize, l.blockSize), 0x100)
  }

  /**
   * The `uint16_t sectors` of erase_storage: nothing when the blocks cover
   * the region, otherwise the sectors needed for the 16-bit remainder,
   * rounded up.
   */
  function Sectors(l: Layout): nat
    requires ValidLayout(l)
  {
    var blocks := Blocks(l);
    if l.appSize > Mul(l.blockSize, blocks) then
      var remainder := Truncate(l.appSize - Mul(l.blockSize, blocks), 0x1_0000);
      var sectors := Div(remainder, l.sectSize);
      if remainder > Mul(l.sectSize, sectors) then sectors + 1 else sectors
    else 0
  }

  /** `n` block erases from `start` in steps of `step`, with 32-bit address arithmetic. */
  function BlockRun(start: nat, step: nat, n: nat): seq<NvmOp>
  {
    if n == 0 then [] else BlockRun(start, step, n - 1) + [EraseBlockOp(Wrap32(start + Mul(step, n - 1)))]
  }

  /** `n` sector erases from `start` in steps of `step`, with 32-bit address arithmetic. */
  function SectorRun(start: nat, step: nat, n: nat): seq<NvmOp>
  {
    if n == 0 then [] else SectorRun(start, step, n - 1) + [EraseSectorOp(Wrap32(start + Mul(step, n - 1)))]
  }

  /** `blocks` block erases from `base`, then `sectors` sector erases from where they end. */
  function EraseRuns(base: nat, blockSize: nat, sectSize: nat, blocks: nat, sectors: nat): seq<NvmOp>
  {
    BlockRun(base, blockSize, blocks) + SectorRun(Wrap32(base + Mul(blockSize, blocks)), sectSize, sectors)
  }

  /** The calls of erase_storage for an application region at `base`. */
  function AppEraseCalls(l: Layout, base: nat): seq<NvmOp>
    requires ValidLayout(l)
  {
    EraseRuns(base, l.blockSize, l.sectSize, Blocks(l), Sectors(l))
  }

  /** The calls of erase_storage. */
  function EraseCalls(b: Backend, l: Layout, region: Region): seq<NvmOp>
    requires ValidLayout(l)
  {
    match region
    case Mac | Config =>
      if b == Flash then [EraseSectorOp(FixedAddr(l, region))] else [EraseEepromOp(FixedAddr(l, region))]
    case AppMain | AppBackup => AppEraseCalls(l, AppBase(l, region))
    case Unknown => []
  }

  /** The calls of read_storage. */
  function ReadCalls(b: Backend, l: Layout, region: Region, addr: uint32, size: uint16): seq<NvmOp>
  {
    match region
    case Mac => [ReadOp(FixedDevice(b), l.macAddr, 6)]
    case Config => [ReadOp(FixedDevice(b), l.configAddr, size)]
    case AppMain | AppBackup => [ReadOp(FlashMem, addr, size)]
    case Unknown => []
  }

  /** The calls of write_storage; on flash, MAC and CONFIG are erased first. */
  function WriteCalls(b: Backend, l: Layout, region: Region, addr: uint32, data: seq<bv8>): seq<NvmOp>
    requires ValidLayout(l)
  {
    match region
    case Mac | Config =>
      (if b == Flash then EraseCalls(b, l, region) else [])
      + [WriteOp(FixedDevice(b), FixedAddr(l, region), data)]
    case AppMain | AppBackup => [WriteOp(FlashMem, addr, data)]
    case Unknown => []
  }

  /** What a read_storage call gives back: its return value and the bytes left in the caller's buffer. */
  datatype Fetch = Fetch(count: nat, bytes: seq<bv8>)

  /** What read_storage delivers when it performs `calls` on `s`: the count and bytes of its one read. */
  function ReadOutcome(s: Nvm, calls: seq<NvmOp>): Outcome<Fetch>
  {
    if calls == [] then InvalidRegion else Done(Fetch(Returned(calls[0]), Fetched(s, calls[0])))
  }

  /** The first address an erase call clears, and how many bytes. */
  function EraseStart(op: NvmOp): nat
  {
    match op
    case ReadOp(_, a, _) => a
    case WriteOp(_, a, _) => a
    case EraseBlockOp(a) => a
    case EraseSectorOp(a) => a
    case EraseEepromOp(a) => a
  }

  function EraseSpan(l: Layout, op: NvmOp): nat
  {
    match op
    case EraseBlockOp(_) => l.blockSize
    case EraseSectorOp(_) => l.sectSize
    case _ => 0
  }

  /** Some flash erase of `plan` clears address x. */
  ghost predicate Erases(l: Layout, plan: seq<NvmOp>, x: nat)
  {
    exists i :: 0 <= i < |plan| && EraseStart(plan[i]) <= x < EraseStart(plan[i]) + EraseSpan(l, plan[i])
  }

  /** The block count fits `uint8_t`, the remainder fits `uint16_t`, and the region does not wrap round 2^32. */
  predicate AppFits(l: Layout, base: nat)
  {
    && ValidLayout(l)
    && Div(l.appSize, l.blockSize) < 0x100
    && Rem(l.appSize, l.blockSize) < 0x1_0000
    && base + l.appSize + l.sectSize <= 0x1_0000_0000
  }

  // ---------------------------------------------------------------------
  // Erase planning

  lemma MulSucc(a: nat, n: nat)
    ensures Mul(a, n + 1) == Mul(a, n) + a
  {
  }

  lemma {:induction false} MulMono(c: nat, a: nat, b: nat)
    requires a <= b
    ensures Mul(c, a) <= Mul(c, b)
    decreases b
  {
    if a < b {
      MulMono(c, a, b - 1);
    }
  }

  /** The least multiple of c that is at least r. */
  lemma CeilDiv(r: nat, c: nat, q: nat)
    requires c > 0
    requires q == (if r > Mul(c, Div(r, c)) then Div(r, c) + 1 else Div(r, c))
    ensures r <= Mul(c, q) < r + c
    ensures q == 0 || Mul(c, q - 1) < r
  {
  }

  /**
   * erase_storage's counts: Div(DEVICE_APP_SIZE, BLOCK_SIZE) block erases,
   * and the least number of sector erases whose span reaches the remainder
   * Rem(DEVICE_APP_SIZE, BLOCK_SIZE) (none when that is zero).
   */
  lemma EraseCounts(l: Layout, base: nat)
    requires AppFits(l, base)
    ensures Blocks(l) == Div(l.appSize, l.blockSize)
    ensures l.appSize == Mul(l.blockSize, Blocks(l)) + Rem(l.appSize, l.blockSize)
    ensures var r := Rem(l.appSize, l.blockSize);
            && r <= Mul(l.sectSize, Sectors(l)) < r + l.sectSize
            && (Sectors(l) == 0 || Mul(l.sectSize, Sectors(l) - 1) < r)
            && (r == 0 <==> Sectors(l) == 0)
  {
    var r := Rem(l.appSize, l.blockSize);
    if r > 0 {
      CeilDiv(r, l.sectSize, Sectors(l));
    }
  }

  /** The runs, element by element, as the source computes them. */
  lemma {:induction false} BlockRunAt(start: nat, step: nat, n: nat)
    ensures |BlockRun(start, step, n)| == n
    ensures forall i :: 0 <= i < n ==> BlockRun(start, step, n)[i] == EraseBlockOp(Wrap32(start + Mul(step, i)))
  {
    if n > 0 {
      BlockRunAt(start, step, n - 1);
    }
  }

  lemma {:induction false} SectorRunAt(start: nat, step: nat, n: nat)
    ensures |SectorRun(start, step, n)| == n
    ensures forall j :: 0 <= j < n ==> SectorRun(start, step, n)[j] == EraseSectorOp(Wrap32(start + Mul(step, j)))
  {
    if n > 0 {
      SectorRunAt(start, step, n - 1);
    }
  }

  /** Two quotients that both bracket s between multiples of c are equal. */
  lemma QuotientUnique(s: nat, c: nat, q1: nat, q2: nat)
    requires c > 0
    requires Mul(c, q1) <= s < Mul(c, q1) + c
    requires Mul(c, q2) <= s < Mul(c, q2) + c
    ensures q1 == q2
  {
    if q1 > q2 {
      MulSucc(c, q2);
      MulMono(c, q2 + 1, q1);
    } else if q2 > q1 {
      MulSucc(c, q1);
      MulMono(c, q1 + 1, q2);
    }
  }

  /** Div and Rem are C's `/` and `%` on unsigned operands. */
  lemma DivIsQuotient(s: nat, c: nat)
    requires c > 0
    ensures Div(s, c) == s / c && Rem(s, c) == s % c
  {
    var q := s / c;
    assert s == c * q + s % c;
    QuotientUnique(s, c, Div(s, c), q);
  }

  /** Truncate is Rem, the remainder left by Div. */
  lemma {:induction false} TruncateIsRem(x: nat, m: nat)
    requires m > 0
    ensures Truncate(x, m) == Rem(x, m)
    decreases x
  {
    if x >= m {
      TruncateIsRem(x - m, m);
      var q := Div(x - m, m);
      assert Div(x, m) == q + 1;
      MulSucc(m, q);
    }
  }

  /** An address below 2^32 is unchanged by Wrap32. */
  lemma Wrap32Small(x: nat)
    requires x < 0x1_0000_0000
    ensures Wrap32(x) == x
  {
  }

  /**
   * The calls of an erase plan as erase_storage issues them: block i at
   * base + BLOCK_SIZE*i, then sector j at the advanced working address plus
   * SECT_SIZE*j, every address taken modulo 2^32.
   */
  lemma EraseRunsAt(base: nat, blockSize: nat, sectSize: nat, k: nat, m: nat)
    ensures var plan := EraseRuns(base, blockSize, sectSize, k, m);
            var next := Wrap32(base + Mul(blockSize, k));
            && |plan| == k + m
            && (forall i :: 0 <= i < k ==> plan[i] == EraseBlockOp(Wrap32(base + Mul(blockSize, i))))
            && (forall j :: 0 <= j < m ==> plan[k + j] == EraseSectorOp(Wrap32(next + Mul(sectSize, j))))
  {
    var plan := EraseRuns(base, blockSize, sectSize, k, m);
    var next := Wrap32(base + Mul(blockSize, k));
    BlockRunAt(base, blockSize, k);
    SectorRunAt(next, sectSize, m);
    forall j | 0 <= j < m
      ensures plan[k + j] == EraseSectorOp(Wrap32(next + Mul(sectSize, j)))
    {
      assert plan[k + j] == SectorRun(next, sectSize, m)[j];
    }
  }

  /** Without wrap-round the 32-bit addresses of an erase plan are the plain sums. */
  lemma NoWrap(base: nat, blockSize: nat, sectSize: nat, k: nat, m: nat)
    requires base + Mul(blockSize, k) + Mul(sectSize, m) < 0x1_0000_0000
    ensures var plan := EraseRuns(base, blockSize, sectSize, k, m);
            && |plan| == k + m
            && (forall i :: 0 <= i < k ==> plan[i] == EraseBlockOp(base + Mul(blockSize, i)))
            && (forall j :: 0 <= j < m ==> plan[k + j] == EraseSectorOp(base + Mul(blockSize, k) + Mul(sectSize, j)))
  {
    var plan := EraseRuns(base, blockSize, sectSize, k, m);
    var next := base + Mul(blockSize, k);
    EraseRunsAt(base, blockSize, sectSize, k, m);
    Wrap32Small(next);
    forall i | 0 <= i < k
      ensures plan[i] == EraseBlockOp(base + Mul(blockSize, i))
    {
      MulMono(blockSize, i, k);
      Wrap32Small(base + Mul(blockSize, i));
    }
    forall j | 0 <= j < m
      ensures plan[k + j] == EraseSectorOp(next + Mul(sectSize, j))
    {
      MulMono(sectSize, j, m);
      Wrap32Small(next + Mul(sectSize, j));
    }
  }

  /** Every call of an erase plan is an erase. */
  lemma RunsAreErases(base: nat, blockSize: nat, sectSize: nat, k: nat, m: nat)
    ensures forall i :: 0 <= i < |EraseRuns(base, blockSize, sectSize, k, m)| ==> IsErase(EraseRuns(base, blockSize, sectSize, k, m)[i])
  {
    var plan := EraseRuns(base, blockSize, sectSize, k, m);
    EraseRunsAt(base, blockSize, sectSize, k, m);
    forall i | 0 <= i < |plan|
      ensures IsErase(plan[i])
    {
      if i >= k {
        var j := i - k;
        assert plan[k + j] == EraseSectorOp(Wrap32(Wrap32(base + Mul(blockSize, k)) + Mul(sectSize, j)));
      }
    }
  }

  /** The shape of a plan without wrap-round: k block erases from `base`, then m sector erases. */
  ghost predicate Shaped(l: Layout, plan: seq<NvmOp>, base: nat, k: nat, m: nat)
  {
    && |plan| == k + m
    && (forall i :: 0 <= i < k ==> plan[i] == EraseBlockOp(base + Mul(l.blockSize, i)))
    && (forall j :: 0 <= j < m ==> plan[k + j] == EraseSectorOp(base + Mul(l.blockSize, k) + Mul(l.sectSize, j)))
  }

  /**
   * With no truncation and no wrap-round, the calls for an application
   * region are the k = Div(DEVICE_APP_SIZE, BLOCK_SIZE) block erases at
   * base + BLOCK_SIZE*i, in increasing order, then the sector erases from
   * base + k*BLOCK_SIZE on in SECT_SIZE steps.
   */
  lemma AppErasePlanShape(b: Backend, l: Layout, region: Region)
    requires region == AppMain || region == AppBackup
    requires AppFits(l, AppBase(l, region))
    ensures var plan := EraseCalls(b, l, region);
            var base := AppBase(l, region);
            var k := Blocks(l);
            && k == Div(l.appSize, l.blockSize)
            && |plan| == k + Sectors(l)
            && (forall i :: 0 <= i < k ==> plan[i] == EraseBlockOp(base + Mul(l.blockSize, i)))
            && (forall j :: 0 <= j < Sectors(l) ==> plan[k + j] == EraseSectorOp(base + Mul(l.blockSize, k) + Mul(l.sectSize, j)))
  {
    var base, k, m := AppBase(l, region), Blocks(l), Sectors(l);
    assert EraseCalls(b, l, region) == EraseRuns(base, l.blockSize, l.sectSize, k, m);
    EraseCounts(l, base);
    assert base + Mul(l.blockSize, k) + Mul(l.sectSize, m) < 0x1_0000_0000;
    NoWrap(base, l.blockSize, l.sectSize, k, m);
  }

  /** In a shaped plan each call starts where the previous one ends, the first at `base`. */
  lemma Contiguous(l: Layout, plan: seq<NvmOp>, base: nat, k: nat, m: nat)
    requires Shaped(l, plan, base, k, m)
    ensures |plan| > 0 ==> EraseStart(plan[0]) == base
    ensures forall i :: 0 <= i < |plan| - 1 ==> EraseStart(plan[i]) + EraseSpan(l, plan[i]) == EraseStart(plan[i + 1])
  {
    if |plan| > 0 && k == 0 {
      assert plan[0 + 0] == EraseSectorOp(base + Mul(l.blockSize, k) + Mul(l.sectSize, 0));
    }
    forall i | 0 <= i < |plan| - 1
      ensures EraseStart(plan[i]) + EraseSpan(l, plan[i]) == EraseStart(plan[i + 1])
    {
      ContiguousStep(l, plan, base, k, m, i);
    }
  }

  /** Call i of a shaped plan ends where call i + 1 starts. */
  lemma ContiguousStep(l: Layout, plan: seq<NvmOp>, base: nat, k: nat, m: nat, i: nat)
    requires Shaped(l, plan, base, k, m) && i + 1 < |plan|
    ensures EraseStart(plan[i]) + EraseSpan(l, plan[i]) == EraseStart(plan[i + 1])
  {
    if i + 1 < k {
      assert plan[i] == EraseBlockOp(base + Mul(l.blockSize, i));
      assert plan[i + 1] == EraseBlockOp(base + Mul(l.blockSize, i + 1));
      MulSucc(l.blockSize, i);
    } else if i + 1 == k {
      assert plan[i] == EraseBlockOp(base + Mul(l.blockSize, i));
      assert plan[k + 0] == EraseSectorOp(base + Mul(l.blockSize, k) + Mul(l.sectSize, 0));
      MulSucc(l.blockSize, i);
    } else {
      var j := i - k;
      assert plan[k + j] == plan[i];
      assert plan[k + (j + 1)] == plan[i + 1];
      MulSucc(l.sectSize, j);
    }
  }

  /** Every address a shaped plan erases lies in [base, base + k*B + m*Sc). */
  lemma ErasesWithin(l: Layout, plan: seq<NvmOp>, base: nat, k: nat, m: nat, x: nat)
    requires Shaped(l, plan, base, k, m) && Erases(l, plan, x)
    ensures base <= x < base + Mul(l.blockSize, k) + Mul(l.sectSize, m)
  {
    var i :| 0 <= i < |plan| && EraseStart(plan[i]) <= x < EraseStart(plan[i]) + EraseSpan(l, plan[i]);
    if i < k {
      MulSucc(l.blockSize, i);
      MulMono(l.blockSize, i + 1, k);
    } else {
      var j := i - k;
      assert plan[k + j] == plan[i];
      MulSucc(l.sectSize, j);
      MulMono(l.sectSize, j + 1, m);
    }
  }

  /** Every address in [base, base + k*B + m*Sc) is erased by a shaped plan. */
  lemma ErasesReach(l: Layout, plan: seq<NvmOp>, base: nat, k: nat, m: nat, x: nat)
    requires l.blockSize > 0 && l.sectSize > 0
    requires Shaped(l, plan, base, k, m)
    requires base <= x < base + Mul(l.blockSize, k) + Mul(l.sectSize, m)
    ensures Erases(l, plan, x)
  {
    var B, Sc := l.blockSize, l.sectSize;
    var d := x - base;
    if d < Mul(B, k) {
      var i := Div(d, B);
      assert i < k by {
        if i >= k { MulMono(B, k, i); }
      }
      assert EraseStart(plan[i]) <= x < EraseStart(plan[i]) + EraseSpan(l, plan[i]);
    } else {
      var j := Div(d - Mul(B, k), Sc);
      assert j < m by {
        if j >= m { MulMono(Sc, m, j); }
      }
      assert EraseStart(plan[k + j]) <= x < EraseStart(plan[k + j]) + EraseSpan(l, plan[k + j]);
    }
  }

  /**
   * The erased span of an application region: the calls are contiguous,
   * the first starts at the region base, and together they clear exactly
   * the addresses from the base up to a length of at least DEVICE_APP_SIZE
   * that overshoots it by less than one SECT_SIZE.
   */
  lemma AppEraseCovers(b: Backend, l: Layout, region: Region)
    requires region == AppMain || region == AppBackup
    requires AppFits(l, AppBase(l, region))
    ensures var plan := EraseCalls(b, l, region);
            var base := AppBase(l, region);
            var len := Mul(l.blockSize, Blocks(l)) + Mul(l.sectSize, Sectors(l));
            && l.appSize <= len < l.appSize + l.sectSize
            && (l.appSize > 0 ==> |plan| > 0 && EraseStart(plan[0]) == base)
            && (forall i :: 0 <= i < |plan| - 1 ==> EraseStart(plan[i]) + EraseSpan(l, plan[i]) == EraseStart(plan[i + 1]))
            && (forall x: nat :: Erases(l, plan, x) <==> base <= x < base + len)
  {
    var plan := EraseCalls(b, l, region);
    var base := AppBase(l, region);
    var k, m := Blocks(l), Sectors(l);
    var len := Mul(l.blockSize, k) + Mul(l.sectSize, m);
    assert l.appSize <= len < l.appSize + l.sectSize && (l.appSize > 0 ==> k + m > 0) by {
      EraseCounts(l, base);
    }
    assert Shaped(l, plan, base, k, m) by {
      AppErasePlanShape(b, l, region);
    }
    Contiguous(l, plan, base, k, m);
    ShapedCovers(l, plan, base, k, m);
  }

  /** A plan of the erase shape clears exactly its contiguous span. */
  lemma ShapedCovers(l: Layout, plan: seq<NvmOp>, base: nat, k: nat, m: nat)
    requires l.blockSize > 0 && l.sectSize > 0
    requires Shaped(l, plan, base, k, m)
    ensures forall x: nat :: Erases(l, plan, x) <==> base <= x < base + Mul(l.blockSize, k) + Mul(l.sectSize, m)
  {
    forall x: nat
      ensures Erases(l, plan, x) <==> base <= x < base + Mul(l.blockSize, k) + Mul(l.sectSize, m)
    {
      if Erases(l, plan, x) {
        ErasesWithin(l, plan, base, k, m, x);
      }
      if base <= x < base + Mul(l.blockSize, k) + Mul(l.sectSize, m) {
        ErasesReach(l, plan, base, k, m, x);
      }
    }
  }

  /** Erasing MAC or CONFIG is one call at the region's fixed address: a sector erase on flash, an EEPROM erase otherwise. */
  lemma FixedEraseIsOneCall(b: Backend, l: Layout, region: Region)
    requires ValidLayout(l) && (region == Mac || region == Config)
    ensures var plan := EraseCalls(b, l, region);
            && |plan| == 1 && IsErase(plan[0]) && EraseStart(plan[0]) == FixedAddr(l, region)
            && (b == Flash ==> plan[0].EraseSectorOp?)
            && (b == ExtEeprom ==> plan[0].EraseEepromOp?)
  {
  }

  /** A flash erase is never undone by later erases. */
  lemma {:induction false} ErasedStaysErased(l: Layout, s: Nvm, plan: seq<NvmOp>, x: nat)
    requires forall i :: 0 <= i < |plan| ==> IsErase(plan[i])
    requires Erases(l, plan, x) || x !in s.flash
    ensures x !in ApplyAll(l, s, plan).flash
    decreases |plan|
  {
    if plan != [] {
      var n := |plan| - 1;
      var front := plan[..n];
      if Erases(l, front, x) || x !in s.flash {
        ErasedStaysErased(l, s, front, x);
      } else {
      }
    }
  }

  /** After erase_storage of an application region, every byte of the region is erased and reads as 0xFF. */
  lemma ErasedAppRegionReadsBlank(b: Backend, l: Layout, region: Region, s: Nvm)
    requires region == AppMain || region == AppBackup
    requires AppFits(l, AppBase(l, region))
    ensures forall x :: AppBase(l, region) <= x < AppBase(l, region) + l.appSize ==> x !in ApplyAll(l, s, EraseCalls(b, l, region)).flash
    ensures ReadBytes(ApplyAll(l, s, EraseCalls(b, l, region)).flash, AppBase(l, region), l.appSize)
         == seq(l.appSize, _ => ERASED)
  {
    var plan := EraseCalls(b, l, region);
    var base := AppBase(l, region);
    AppEraseCovers(b, l, region);
    RunsAreErases(base, l.blockSize, l.sectSize, Blocks(l), Sectors(l));
    var flash := ApplyAll(l, s, plan).flash;
    forall x | base <= x < base + l.appSize
      ensures x !in flash
    {
      assert Erases(l, plan, x);
      ErasedStaysErased(l, s, plan, x);
    }
    var r := ReadBytes(flash, base, l.appSize);
    forall i | 0 <= i < l.appSize
      ensures r[i] == ERASED
    {
      assert base + i !in flash;
      assert r[i] == Cell(flash, base + i);
    }
  }

  // ---------------------------------------------------------------------
  // Routing

  /**
   * MAC and CONFIG ignore the caller's address: reads and writes go to the
   * same calls whatever `addr` is.
   */
  lemma FixedRegionsIgnoreAddress(b: Backend, l: Layout, region: Region, addr1: uint32, addr2: uint32, size: uint16, data: seq<bv8>)
    requires ValidLayout(l) && (region == Mac || region == Config)
    ensures ReadCalls(b, l, region, addr1, size) == ReadCalls(b, l, region, addr2, size)
    ensures WriteCalls(b, l, region, addr1, data) == WriteCalls(b, l, region, addr2, data)
  {
  }

  /**
   * A MAC read is 6 bytes from DEVICE_MAC_ADDR whatever size is asked for;
   * a CONFIG read is `size` bytes from DEVICE_CONFIG_ADDR; both on the
   * configured backend. Application regions read `size` bytes of flash at
   * the caller's address; an unknown region makes no call and reports
   * InvalidRegion.
   */
  lemma ReadRouting(b: Backend, l: Layout, region: Region, addr: uint32, size: uint16, s: Nvm)
    ensures var calls := ReadCalls(b, l, region, addr, size);
            var dev := if b == Flash then s.flash else s.eeprom;
            && (region == Mac ==> ReadOutcome(s, calls) == Done(Fetch(6, ReadBytes(dev, l.macAddr, 6))))
            && (region == Config ==> ReadOutcome(s, calls) == Done(Fetch(size, ReadBytes(dev, l.configAddr, size))))
            && (region == AppMain || region == AppBackup ==> ReadOutcome(s, calls) == Done(Fetch(size, ReadBytes(s.flash, addr, size))))
            && (region == Unknown <==> calls == [])
            && (region == Unknown <==> ReadOutcome(s, calls) == InvalidRegion)
            && ApplyAll(l, s, calls) == s
  {
    var calls := ReadCalls(b, l, region, addr, size);
    if calls != [] {
      assert ApplyAll(l, s, calls) == Apply(l, ApplyAll(l, s, []), calls[0]);
    }
  }

  /**
   * Erase before write: on flash, a MAC or CONFIG write is exactly one
   * erase of that region immediately followed by the write at its fixed
   * address; on the EEPROM, and for the application regions, no erase is
   * issued at all; an unknown region makes no call.
   */
  lemma EraseBeforeWrite(b: Backend, l: Layout, region: Region, addr: uint32, data: seq<bv8>)
    requires ValidLayout(l)
    ensures var calls := WriteCalls(b, l, region, addr, data);
            && (b == Flash && (region == Mac || region == Config) ==>
                  && |calls| == 2 && calls[0] == EraseSectorOp(FixedAddr(l, region))
                  && calls[1] == WriteOp(FlashMem, FixedAddr(l, region), data))
            && (b == ExtEeprom && (region == Mac || region == Config) ==>
                  calls == [WriteOp(Eeprom, FixedAddr(l, region), data)])
            && (region == AppMain || region == AppBackup ==> calls == [WriteOp(FlashMem, addr, data)])
            && (region == Unknown <==> calls == [])
            && (forall i :: 0 <= i < |calls| && IsErase(calls[i]) ==> b == Flash && i == 0 && |calls| == 2)
  {
  }

  // ---------------------------------------------------------------------
  // Backend media

  /** Reading an erased span gives 0xFF throughout. */
  lemma ReadAfterBlank(m: map<nat, bv8>, a: nat, n: nat)
    ensures ReadBytes(Blank(m, a, n), a, n) == seq(n, _ => ERASED)
  {
    var r := ReadBytes(Blank(m, a, n), a, n);
    forall i | 0 <= i < n
      ensures r[i] == ERASED
    {
      assert a + i !in Blank(m, a, n);
      assert r[i] == Cell(Blank(m, a, n), a + i);
    }
  }

  /** Reading back what was written to the EEPROM gives the data, whatever it held before. */
  lemma ReadAfterWrite(m: map<nat, bv8>, a: nat, d: seq<bv8>)
    ensures ReadBytes(WriteBytes(m, a, d), a, |d|) == d
  {
    var w := WriteBytes(m, a, d);
    var r := ReadBytes(w, a, |d|);
    forall i | 0 <= i < |d|
      ensures r[i] == d[i]
    {
      assert a + i in w && w[a + i] == d[i];
      assert r[i] == Cell(w, a + i);
    }
  }

  /** Reading back what was programmed into erased flash gives the data. */
  lemma ReadAfterProgram(m: map<nat, bv8>, a: nat, d: seq<bv8>)
    requires forall k :: a <= k < a + |d| ==> k !in m
    ensures ReadBytes(ProgramBytes(m, a, d), a, |d|) == d
  {
    var p := ProgramBytes(m, a, d);
    var r := ReadBytes(p, a, |d|);
    forall i | 0 <= i < |d|
      ensures r[i] == d[i]
    {
      assert Cell(m, a + i) == ERASED;
      assert r[i] == Cell(p, a + i);
    }
  }

  /**
   * Erase before write is needed on flash: when the first CONFIG byte
   * holds 0x00, programming 0x5A over it without an erase reads back 0x00,
   * while write_storage's erase-then-write reads back 0x5A.
   */
  lemma ProgrammingNeedsErase(l: Layout, s: Nvm)
    requires ValidLayout(l)
    requires l.configAddr in s.flash && s.flash[l.configAddr] == 0x00
    ensures ReadBytes(ApplyAll(l, s, [WriteOp(FlashMem, l.configAddr, [0x5A])]).flash, l.configAddr, 1) == [0x00]
    ensures ReadBytes(ApplyAll(l, s, WriteCalls(Flash, l, Config, 0, [0x5A])).flash, l.configAddr, 1) == [0x5A]
  {
    var a := l.configAddr;
    var w := WriteOp(FlashMem, a, [0x5A]);
    assert ApplyAll(l, s, [w]) == Apply(l, s, w);
    var once := ProgramBytes(s.flash, a, [0x5A]);
    assert once[a] == Programmed(0x00, 0x5A) == 0x00;
    assert ReadBytes(once, a, 1)[0] == Cell(once, a);
    var e := EraseSectorOp(a);
    assert WriteCalls(Flash, l, Config, 0, [0x5A]) == [e, w];
    assert [e, w][..1] == [e];
    assert ApplyAll(l, s, [e]) == Apply(l, s, e);
    var erased := Apply(l, s, e);
    assert ApplyAll(l, s, [e, w]) == Apply(l, erased, w);
    assert a !in erased.flash;
    ReadAfterProgram(erased.flash, a, [0x5A]);
  }

  /**
   * Round trip: after write_storage of `data` to a known region, a
   * read_storage of the same region and length returns `data` unchanged
   * (for MAC the length is the fixed 6; for the application regions the
   * read address is the write address). On flash this needs the bytes to
   * be erased when programmed: for MAC and CONFIG the erase write_storage
   * issues does that when the data fits in one sector; an application
   * region must have been erased beforehand (see EraseThenWriteReadsBack).
   */
  lemma {:induction false} WriteThenReadReturnsData(b: Backend, l: Layout, region: Region,
                                                    writeAddr: uint32, readAddr: uint32, data: seq<bv8>, s: Nvm)
    requires ValidLayout(l) && region != Unknown && |data| < 0x1_0000
    requires region == Mac ==> |data| == 6
    requires b == Flash && (region == Mac || region == Config) ==> |data| <= l.sectSize
    requires region == AppMain || region == AppBackup ==>
               && readAddr == writeAddr
               && forall k :: writeAddr <= k < writeAddr + |data| ==> k !in s.flash
    ensures var after := ApplyAll(l, s, WriteCalls(b, l, region, writeAddr, data));
            ReadOutcome(after, ReadCalls(b, l, region, readAddr, |data|)) == Done(Fetch(|data|, data))
  {
    var calls := WriteCalls(b, l, region, writeAddr, data);
    var n := |calls| - 1;
    var w := calls[n];
    var before := ApplyAll(l, s, calls[..n]);
    var after := ApplyAll(l, s, calls);
    assert after == Apply(l, before, w);
    if b == Flash && (region == Mac || region == Config) {
      var e := calls[0];
      assert calls[..n] == [e] && e == EraseSectorOp(w.addr);
      assert before == Apply(l, ApplyAll(l, s, []), e);
      ReadAfterProgram(before.flash, w.addr, data);
    } else {
      assert calls[..n] == [];
      if w.dev == FlashMem {
        ReadAfterProgram(before.flash, w.addr, data);
      } else {
        ReadAfterWrite(before.eeprom, w.addr, data);
      }
    }
  }

  /**
   * The application-image update: after erase_storage of an application
   * region, a write_storage anywhere inside the region reads back intact.
   */
  lemma EraseThenWriteReadsBack(b: Backend, l: Layout, region: Region, addr: uint32, data: seq<bv8>, s: Nvm)
    requires region == AppMain || region == AppBackup
    requires AppFits(l, AppBase(l, region)) && |data| < 0x1_0000
    requires AppBase(l, region) <= addr && addr + |data| <= AppBase(l, region) + l.appSize
    ensures var erased := ApplyAll(l, s, EraseCalls(b, l, region));
            var after := ApplyAll(l, erased, WriteCalls(b, l, region, addr, data));
            ReadOutcome(after, ReadCalls(b, l, region, addr, |data|)) == Done(Fetch(|data|, data))
  {
    ErasedAppRegionReadsBlank(b, l, region, s);
    WriteThenReadReturnsData(b, l, region, addr, addr, data, ApplyAll(l, s, EraseCalls(b, l, region)));
  }

  lemma {:induction false} ApplyAllAppend(l: Layout, s: Nvm, ops: seq<NvmOp>, op: NvmOp)
    ensures ApplyAll(l, s, ops + [op]) == Apply(l, ApplyAll(l, s, ops), op)
  {
    assert (ops + [op])[..|ops|] == ops;
  }

  /** The application erase plan, split at the end of its block erases. */
  lemma AppEraseCallsSplit(l: Layout, base: nat, blocks: nat, sectors: nat)
    requires ValidLayout(l) && blocks == Blocks(l) && sectors == Sectors(l)
    ensures AppEraseCalls(l, base)
         == BlockRun(base, l.blockSize, blocks) + SectorRun(Wrap32(base + Mul(l.blockSize, blocks)), l.sectSize, sectors)
  {
  }

  lemma ConcatAssoc<T>(a: seq<T>, b: seq<T>, c: seq<T>)
    ensures a + b + c == a + (b + c)
  {
  }

  /** Performing `a` and then `b` is performing `a + b`. */
  lemma {:induction false} ApplyAllConcat(l: Layout, s: Nvm, a: seq<NvmOp>, b: seq<NvmOp>)
    ensures ApplyAll(l, s, a + b) == ApplyAll(l, ApplyAll(l, s, a), b)
    decreases |b|
  {
    if b == [] {
      assert a + b == a;
    } else {
      var n := |b| - 1;
      ApplyAllConcat(l, s, a, b[..n]);
      assert (a + b)[..|a + b| - 1] == a + b[..n];
    }
  }

  /** The storage handler over one backend and one device profile. */
  class Storage {
    const backend: Backend
    const layout: Layout
    var nvm: Nvm
    /** every backend call issued so far */
    ghost var trace: seq<NvmOp>

    constructor (b: Backend, l: Layout, s: Nvm)
      ensures backend == b && layout == l && nvm == s && trace == []
    {
      backend, layout, nvm := b, l, s;
      trace := [];
    }

    /** One backend driver call. */
    method Issue(op: NvmOp) returns (n: nat, bytes: seq<bv8>)
      modifies this`nvm, this`trace
      ensures trace == old(trace) + [op]
      ensures nvm == Apply(layout, old(nvm), op)
      ensures n == Returned(op) && bytes == Fetched(old(nvm), op)
    {
      n, bytes := Returned(op), Fetched(nvm, op);
      nvm := Apply(layout, nvm, op);
      trace := trace + [op];
    }

    /**
     * read_storage: returns the count the backend reports (6 for MAC,
     * `size` otherwise) with the bytes read, or InvalidRegion.
     */
    method ReadStorage(region: Region, addr: uint32, size: uint16) returns (r: Outcome<Fetch>)
      modifies this`nvm, this`trace
      ensures trace == old(trace) + ReadCalls(backend, layout, region, addr, size)
      ensures nvm == old(nvm)
      ensures r.Done? <==> region != Unknown
      ensures r.Done? ==> r.value.count == (if region == Mac then 6 else size) && |r.value.bytes| == r.value.count
      ensures r == ReadOutcome(old(nvm), ReadCalls(backend, layout, region, addr, size))
    {
      ReadRouting(backend, layout, region, addr, size, nvm);
      var dev := FixedDevice(backend);
      match region {
        case Mac =>
          var n, bytes := Issue(ReadOp(dev, layout.macAddr, 6));
          r := Done(Fetch(n, bytes));
        case Config =>
          var n, bytes := Issue(ReadOp(dev, layout.configAddr, size));
          r := Done(Fetch(n, bytes));
        case AppMain =>
          var n, bytes := Issue(ReadOp(FlashMem, addr, size));
          r := Done(Fetch(n, bytes));
        case AppBackup =>
          var n, bytes := Issue(ReadOp(FlashMem, addr, size));
          r := Done(Fetch(n, bytes));
        case Unknown =>
          r := InvalidRegion;
      }
    }

    /** write_storage: returns the count the backend reports, or InvalidRegion. */
    method WriteStorage(region: Region, addr: uint32, data: seq<bv8>) returns (r: Outcome<nat>)
      requires ValidLayout(layout) && |data| < 0x1_0000
      modifies this`nvm, this`trace
      ensures trace == old(trace) + WriteCalls(backend, layout, region, addr, data)
      ensures nvm == ApplyAll(layout, old(nvm), WriteCalls(backend, layout, region, addr, data))
      ensures r == if region == Unknown then InvalidRegion else Done(|data|)
    {
      ghost var s0 := nvm;
      var dev := FixedDevice(backend);
      match region {
        case Mac =>
          if backend == Flash {
            EraseStorage(Mac);
          }
          var n, _ := Issue(WriteOp(dev, layout.macAddr, data));
          r := Done(n);
          ApplyAllAppend(layout, s0, if backend == Flash then EraseCalls(backend, layout, Mac) else [], WriteOp(dev, layout.macAddr, data));
        case Config =>
          if backend == Flash {
            EraseStorage(Config);
          }
          var n, _ := Issue(WriteOp(dev, layout.configAddr, data));
          r := Done(n);
          ApplyAllAppend(layout, s0, if backend == Flash then EraseCalls(backend, layout, Config) else [], WriteOp(dev, layout.configAddr, data));
        case AppMain =>
          var n, _ := Issue(WriteOp(FlashMem, addr, data));
          r := Done(n);
          ApplyAllAppend(layout, s0, [], WriteOp(FlashMem, addr, data));
        case AppBackup =>
          var n, _ := Issue(WriteOp(FlashMem, addr, data));
          r := Done(n);
          ApplyAllAppend(layout, s0, [], WriteOp(FlashMem, addr, data));
        case Unknown =>
          r := InvalidRegion;
      }
    }

    /**
     * erase_storage: one erase at the fixed address for MAC and CONFIG,
     * the block-and-sector erase of EraseAppRegion for an application
     * region, nothing for an unknown region.
     */
    method EraseStorage(region: Region)
      requires ValidLayout(layout)
      modifies this`nvm, this`trace
      ensures trace == old(trace) + EraseCalls(backend, layout, region)
      ensures nvm == ApplyAll(layout, old(nvm), EraseCalls(backend, layout, region))
    {
      ghost var s0 := nvm;
      ghost var plan := EraseCalls(backend, layout, region);
      match region {
        case Mac =>
          if backend == Flash {
            var _, _ := Issue(EraseSectorOp(layout.macAddr));
          } else {
            var _, _ := Issue(EraseEepromOp(layout.macAddr));
          }
          ApplyAllAppend(layout, s0, [], plan[0]);
        case Config =>
          if backend == Flash {
            var _, _ := Issue(EraseSectorOp(layout.configAddr));
          } else {
            var _, _ := Issue(EraseEepromOp(layout.configAddr));
          }
          ApplyAllAppend(layout, s0, [], plan[0]);
        case AppMain =>
          EraseAppRegion(layout.appMainAddr);
        case AppBackup =>
          EraseAppRegion(layout.appBackupAddr);
        case Unknown =>
      }
    }

    /**
     * The application-region part of erase_storage for the region at
     * `address`: the counts of Blocks and Sectors, then the block erases and
     * the sector erases at 32-bit addresses.
     */
    method EraseAppRegion(address: uint32)
      requires ValidLayout(layout)
      modifies this`nvm, this`trace
      ensures trace == old(trace) + AppEraseCalls(layout, address)
      ensures nvm == ApplyAll(layout, old(nvm), AppEraseCalls(layout, address))
    {
      var blockSize, sectSize := layout.blockSize, layout.sectSize;
      var blocks, sectors := Blocks(layout), Sectors(layout);
      ghost var next := Wrap32(address + Mul(blockSize, blocks));
      ghost var blockRun, sectorRun := BlockRun(address, blockSize, blocks), SectorRun(next, sectSize, sectors);
      AppEraseCallsSplit(layout, address, blocks, sectors);

      ghost var s0, t0 := nvm, trace;
      var working: uint32 := address;
      EraseBlocks(working, blocks);
      ghost var s1 := nvm;
      working := Wrap32(working + Mul(blockSize, blocks));
      if sectors > 0 {
        EraseSectors(working, sectors);
        working := Wrap32(working + Mul(sectSize, sectors));
      } else {
        assert sectorRun == [];
      }
      assert trace == t0 + blockRun + sectorRun;
      ConcatAssoc(t0, blockRun, sectorRun);
      ApplyAllConcat(layout, s0, blockRun, sectorRun);
    }

    /** The block loop of erase_storage: `n` block erases from `start` in BLOCK_SIZE steps. */
    method EraseBlocks(start: uint32, n: nat)
      modifies this`nvm, this`trace
      ensures trace == old(trace) + BlockRun(start, layout.blockSize, n)
      ensures nvm == ApplyAll(layout, old(nvm), BlockRun(start, layout.blockSize, n))
    {
      ghost var s0, t0 := nvm, trace;
      var i := 0;
      while i < n
        invariant 0 <= i <= n
        invariant trace == t0 + BlockRun(start, layout.blockSize, i)
        invariant nvm == ApplyAll(layout, s0, BlockRun(start, layout.blockSize, i))
      {
        var op := EraseBlockOp(Wrap32(start + Mul(layout.blockSize, i)));
        var _, _ := Issue(op);
        ApplyAllAppend(layout, s0, BlockRun(start, layout.blockSize, i), op);
        i := i + 1;
      }
    }

    /** The sector loop of erase_storage: `n` sector erases from `start` in SECT_SIZE steps. */
    method EraseSectors(start: uint32, n: nat)
      modifies this`nvm, this`trace
      ensures trace == old(trace) + SectorRun(start, layout.sectSize, n)
      ensures nvm == ApplyAll(layout, old(nvm), SectorRun(start, layout.sectSize, n))
    {
      ghost var s0, t0 := nvm, trace;
      var i := 0;
      while i < n
        invariant 0 <= i <= n
        invariant trace == t0 + SectorRun(start, layout.sectSize, i)
        invariant nvm == ApplyAll(layout, s0, SectorRun(start, layout.sectSize, i))
      {
        var op := EraseSectorOp(Wrap32(start + Mul(layout.sectSize, i)));
        var _, _ := Issue(op);
        ApplyAllAppend(layout, s0, SectorRun(start, layout.sectSize, i), op);
        i := i + 1;
      }
    }
  }
}
