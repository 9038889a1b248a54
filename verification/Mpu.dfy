/** Memory protection unit: packing of the region registers and loading of region tables
    (section B3.5 of the ARMv7-M Architecture Reference Manual). */
module Mpu {

  // ---- register packing ----

  const RBAR_ADDR_MSK: bv32 := 0xFFFF_FFE0
  const RBAR_VALID_MSK: bv32 := 0x10
  const RBAR_REGION_MSK: bv32 := 0xF
  const RASR_XN_MSK: bv32 := 0x1000_0000
  const RASR_AP_MSK: bv32 := 0x0700_0000
  const RASR_TEX_MSK: bv32 := 0x0038_0000
  const RASR_S_MSK: bv32 := 0x0004_0000
  const RASR_C_MSK: bv32 := 0x0002_0000
  const RASR_B_MSK: bv32 := 0x0001_0000
  const RASR_SRD_MSK: bv32 := 0xFF00
  const RASR_SIZE_MSK: bv32 := 0x3E
  const RASR_ENABLE_MSK: bv32 := 1

  /** ARM_MPU_RBAR: the word names its region and is accepted as doing so. */
  function Rbar(region: bv32, base: bv32): (w: bv32)
    ensures w & RBAR_VALID_MSK != 0
    ensures w & RBAR_REGION_MSK == region & 0xF
    ensures w & RBAR_ADDR_MSK == base & 0xFFFF_FFE0
  {
    (base & RBAR_ADDR_MSK) | (region & RBAR_REGION_MSK) | RBAR_VALID_MSK
  }

  /** The same by the bits of the word: 31..5, 4 and 3..0. */
  lemma RbarFields(region: bv32, base: bv32)
    ensures var w := Rbar(region, base);
            w & 0xFFFF_FFE0 == base & 0xFFFF_FFE0 && (w >> 4) & 1 == 1 && w & 0xF == region & 0xF
  {
    var w := Rbar(region, base);
    assert w & RBAR_VALID_MSK == w & 0x10;
    assert w & 0x10 != 0 ==> (w >> 4) & 1 == 1;
  }

  /** ARM_MPU_ACCESS_ */
  function Access(tex: bv32, shareable: bv32, cacheable: bv32, bufferable: bv32): bv32 {
    ((tex << 19) & RASR_TEX_MSK) | ((shareable << 18) & RASR_S_MSK)
    | ((cacheable << 17) & RASR_C_MSK) | ((bufferable << 16) & RASR_B_MSK)
  }

  /** ARM_MPU_RASR_EX */
  function RasrEx(xn: bv32, ap: bv32, access: bv32, srd: bv32, size: bv32): bv32 {
    ((xn << 28) & RASR_XN_MSK) | ((ap << 24) & RASR_AP_MSK)
    | (access & (RASR_TEX_MSK | RASR_S_MSK | RASR_C_MSK | RASR_B_MSK))
    | ((srd << 8) & RASR_SRD_MSK) | ((size << 1) & RASR_SIZE_MSK) | RASR_ENABLE_MSK
  }

  /** ARM_MPU_RASR */
  function Rasr(xn: bv32, ap: bv32, tex: bv32, shareable: bv32, cacheable: bv32, bufferable: bv32,
                srd: bv32, size: bv32): bv32
  {
    RasrEx(xn, ap, Access(tex, shareable, cacheable, bufferable), srd, size)
  }

  datatype Attributes = Attributes(xn: bv32, ap: bv32, tex: bv32, shareable: bv32, cacheable: bv32,
                                   bufferable: bv32, srd: bv32, size: bv32, enable: bv32)

  /** The fields of a region attribute and size register. */
  function Fields(w: bv32): Attributes {
    Attributes((w >> 28) & 1, (w >> 24) & 7, (w >> 19) & 7, (w >> 18) & 1, (w >> 17) & 1,
               (w >> 16) & 1, (w >> 8) & 0xFF, (w >> 1) & 0x1F, w & 1)
  }

  /** Every argument comes back, cut to the width of its field, and the region is enabled. */
  lemma RasrFields(xn: bv32, ap: bv32, tex: bv32, shareable: bv32, cacheable: bv32, bufferable: bv32,
                   srd: bv32, size: bv32)
    ensures Fields(Rasr(xn, ap, tex, shareable, cacheable, bufferable, srd, size))
         == Attributes(xn & 1, ap & 7, tex & 7, shareable & 1, cacheable & 1, bufferable & 1,
                       srd & 0xFF, size & 0x1F, 1)
  {}

  /** ARM_MPU_ACCESS_NORMAL, which passes bit 1 of the inner policy on without moving it down. */
  function AccessNormal(outer: bv32, inner: bv32, shareable: bv32): bv32 {
    Access(4 | outer, shareable, inner & 2, inner & 1)
  }

  /** The C and B bits spell the inner cache policy exactly for the policies without bit 1; the C
      bit is never set. The other fields are as documented for every policy. */
  lemma NormalInnerPolicyIff(outer: bv32, inner: bv32, shareable: bv32)
    ensures var f := Fields(AccessNormal(outer, inner, shareable));
            && (f.cacheable == (inner >> 1) & 1 <==> inner & 2 == 0)
            && f.bufferable == inner & 1 && f.shareable == shareable & 1 && f.tex == (4 | outer) & 7
  {}

  // ---- the registers ----

  const REGIONS: nat := 256
  datatype Region = Region(base: bv32, attributes: bv32)
  type RegionNo = r: nat | r < REGIONS
  type RegionFile = f: seq<Region> | |f| == REGIONS witness seq(REGIONS, _ => Region(0, 0))

  /** The selected region and the contents of all regions. */
  datatype State = State(rnr: RegionNo, regions: RegionFile)

  /** The word is the number r. */
  predicate IsNumber(word: bv32, r: RegionNo) {
    word as nat == r
  }

  lemma NumberOfWord(word: bv32, r: RegionNo)
    requires IsNumber(word, r)
    ensures word < 256
  {
    assert word as nat < 256;
  }

  /** Bits 3..0 of a base address word. */
  function RegionOfRbar(word: bv32): (r: RegionNo)
    ensures r < 16
    ensures word & 0xF == word ==> r == word as nat
  {
    assert word & RBAR_REGION_MSK < 16;
    (word & RBAR_REGION_MSK) as nat
  }

  /** RNR keeps eight bits. */
  function RegionOfRnr(word: bv32): (r: RegionNo)
    ensures word < 256 ==> r == word as nat
  {
    assert word & 0xFF < 256;
    (word & 0xFF) as nat
  }

  function SelectRegion(s: State, word: bv32): State {
    s.(rnr := RegionOfRnr(word))
  }

  /** A base address word either selects a region of its own or goes to the selected one. */
  function WriteRbar(s: State, word: bv32): State {
    var r := if word & RBAR_VALID_MSK != 0 then RegionOfRbar(word) else s.rnr;
    State(r, s.regions[r := s.regions[r].(base := word & RBAR_ADDR_MSK)])
  }

  function WriteRasr(s: State, word: bv32): State {
    s.(regions := s.regions[s.rnr := s.regions[s.rnr].(attributes := word)])
  }

  /** A store to RNR, or to one of the eight words from RBAR on: RBAR, RASR and three pairs of
      aliases, which act as RBAR and RASR do on the selected region. */
  datatype RegWrite = Rnr(word: bv32) | Window(offset: nat, word: bv32)

  function Write(s: State, w: RegWrite): State {
    match w
    case Rnr(word) => SelectRegion(s, word)
    case Window(offset, word) =>
      if offset in {0, 2, 4, 6} then WriteRbar(s, word)
      else if offset in {1, 3, 5, 7} then WriteRasr(s, word)
      else s
  }

  function Replay(s: State, ws: seq<RegWrite>): State {
    if ws == [] then s else Write(Replay(s, ws[..|ws| - 1]), ws[|ws| - 1])
  }

  lemma ReplayLast(s: State, ws: seq<RegWrite>, w: RegWrite)
    ensures Replay(s, ws + [w]) == Write(Replay(s, ws), w)
  {}

  lemma {:induction false} ReplayAppend(s: State, a: seq<RegWrite>, b: seq<RegWrite>)
    ensures Replay(s, a + b) == Replay(Replay(s, a), b)
    decreases b
  {
    if b == [] {
      assert a + b == a;
    } else {
      var n := |b| - 1;
      ReplayAppend(s, a, b[..n]);
      assert (a + b)[..|a + b| - 1] == a + b[..n];
    }
  }

  // ---- tables ----

  datatype Row = Row(rbar: bv32, rasr: bv32)

  function SetRow(s: State, row: Row): State {
    WriteRasr(WriteRbar(s, row.rbar), row.rasr)
  }

  /** Programming the first n rows one by one. */
  function SetRows(s: State, rows: seq<Row>, n: nat): State
    requires n <= |rows|
  {
    if n == 0 then s else SetRow(SetRows(s, rows, n - 1), rows[n - 1])
  }

  /** The words of a table as they lie in memory. */
  function Words(rows: seq<Row>): (ws: seq<bv32>)
    ensures |ws| == 2 * |rows|
  {
    if rows == [] then [] else [rows[0].rbar, rows[0].rasr] + Words(rows[1..])
  }

  lemma {:induction false} WordsAt(rows: seq<Row>, k: nat)
    requires k < |rows|
    ensures Words(rows)[2 * k] == rows[k].rbar && Words(rows)[2 * k + 1] == rows[k].rasr
  {
    if k == 0 {
    } else {
      WordsAt(rows[1..], k - 1);
    }
  }

  /** The place in the eight-word window of the k-th word of a load: k modulo 8. */
  function Place(k: nat): (offset: nat)
    ensures offset < 8
  {
    if k < 8 then k else Place(k - 8)
  }

  lemma {:induction false} PlaceIn(chunk: nat, k: nat)
    requires k < 8
    ensures Place(8 * chunk + k) == k
  {
    if chunk == 0 {
    } else {
      PlaceIn(chunk - 1, k);
    }
  }

  lemma {:induction false} PlaceParity(k: nat)
    ensures Place(2 * k) in {0, 2, 4, 6} && Place(2 * k + 1) in {1, 3, 5, 7}
  {
    if k < 4 {
    } else {
      PlaceParity(k - 4);
    }
  }

  /** The stores that load the first n words: each once, in order, at its place in the window. */
  function LoadWrites(ws: seq<bv32>, n: nat): seq<RegWrite>
    requires n <= |ws|
  {
    if n == 0 then [] else LoadWrites(ws, n - 1) + [Window(Place(n - 1), ws[n - 1])]
  }

  /** The stores that copy n words to the start of the window. */
  function CopyWrites(ws: seq<bv32>, from: nat, n: nat): seq<RegWrite>
    requires from + n <= |ws|
  {
    if n == 0 then [] else CopyWrites(ws, from, n - 1) + [Window(n - 1, ws[from + n - 1])]
  }

  lemma {:induction false} ChunkWrites(ws: seq<bv32>, chunk: nat, n: nat)
    requires n <= 8 && 8 * chunk + n <= |ws|
    ensures LoadWrites(ws, 8 * chunk + n) == LoadWrites(ws, 8 * chunk) + CopyWrites(ws, 8 * chunk, n)
  {
    if n == 0 {
    } else {
      ChunkWrites(ws, chunk, n - 1);
      PlaceIn(chunk, n - 1);
    }
  }

  lemma ChunkLog(log: seq<RegWrite>, ws: seq<bv32>, chunk: nat, n: nat)
    requires n <= 8 && 8 * chunk + n <= |ws|
    ensures log + LoadWrites(ws, 8 * chunk) + CopyWrites(ws, 8 * chunk, n) == log + LoadWrites(ws, 8 * chunk + n)
  {
    ChunkWrites(ws, chunk, n);
  }

  lemma RowStores(s: State, row: Row, i: nat, j: nat)
    requires i in {0, 2, 4, 6} && j in {1, 3, 5, 7}
    ensures Write(Write(s, Window(i, row.rbar)), Window(j, row.rasr)) == SetRow(s, row)
  {}

  lemma ReplayTwo(s: State, ws: seq<RegWrite>, v: RegWrite, w: RegWrite)
    ensures Replay(s, ws + [v] + [w]) == Write(Write(Replay(s, ws), v), w)
  {}

  lemma LoadTwo(ws: seq<bv32>, k: nat)
    requires 2 * k + 2 <= |ws|
    ensures LoadWrites(ws, 2 * k + 2)
         == LoadWrites(ws, 2 * k) + [Window(Place(2 * k), ws[2 * k])] + [Window(Place(2 * k + 1), ws[2 * k + 1])]
  {}

  lemma LoadRow(s: State, rows: seq<Row>, k: nat)
    requires k < |rows|
    ensures Replay(s, LoadWrites(Words(rows), 2 * (k + 1)))
         == SetRow(Replay(s, LoadWrites(Words(rows), 2 * k)), rows[k])
  {
    var ws := Words(rows);
    var i, j := Place(2 * k), Place(2 * k + 1);
    LoadTwo(ws, k);
    WordsAt(rows, k);
    PlaceParity(k);
    ReplayTwo(s, LoadWrites(ws, 2 * k), Window(i, rows[k].rbar), Window(j, rows[k].rasr));
    RowStores(Replay(s, LoadWrites(ws, 2 * k)), rows[k], i, j);
  }

  /** The stores of a load program the rows one by one, wherever in the window they go. */
  lemma {:induction false} LoadSetsRows(s: State, rows: seq<Row>, n: nat)
    requires n <= |rows|
    ensures Replay(s, LoadWrites(Words(rows), 2 * n)) == SetRows(s, rows, n)
  {
    if n == 0 {
    } else {
      var k := n - 1;
      LoadSetsRows(s, rows, k);
      LoadRow(s, rows, k);
      assert SetRows(s, rows, k + 1) == SetRow(SetRows(s, rows, k), rows[k]);
    }
  }

  // ---- the regions by number ----

  /** A number in RNR selects the region of that number. */
  lemma RnrSelects(word: bv32, r: RegionNo)
    requires IsNumber(word, r)
    ensures RegionOfRnr(word) == r
  {
    NumberOfWord(word, r);
  }

  lemma SmallNumber(word: bv32)
    requires word as nat < 16
    ensures word & 0xF == word
  {}

  /** A base word made by ARM_MPU_RBAR for the region of number r, below 16, names that region. */
  lemma RbarNames(region: bv32, base: bv32, r: RegionNo)
    requires IsNumber(region, r) && r < 16
    ensures RegionOfRbar(Rbar(region, base)) == r
  {
    NumberOfWord(region, r);
    SmallNumber(region);
    assert Rbar(region, base) & RBAR_REGION_MSK == region;
  }

  lemma ClearsNumbered(s: State, word: bv32, r: RegionNo)
    requires IsNumber(word, r)
    ensures WriteRasr(SelectRegion(s, word), 0) == State(r, s.regions[r := s.regions[r].(attributes := 0)])
  {
    RnrSelects(word, r);
  }

  /** A base word that names no region. */
  predicate Unnamed(rbar: bv32) {
    rbar & RBAR_VALID_MSK == 0
  }

  /** The contents of a region programmed with a row. */
  function RegionOf(row: Row): Region {
    Region(row.rbar & RBAR_ADDR_MSK, row.rasr)
  }

  /** The base is in bits 31..5, and a word names no region if bit 4 is clear. */
  lemma BaseBits(w: bv32, rasr: bv32)
    ensures RegionOf(Row(w, rasr)).base == w & 0xFFFF_FFE0
    ensures Unnamed(w) <==> (w >> 4) & 1 == 0
  {}

  lemma RowEffect(s: State, row: Row, r: RegionNo)
    ensures var t := SetRow(s, row);
            t.regions[r] == if r == t.rnr then RegionOf(row) else s.regions[r]
  {}

  lemma UnnamedStays(s: State, row: Row)
    requires Unnamed(row.rbar)
    ensures SetRow(s, row).rnr == s.rnr
  {}

  /** A row programs the region that is selected after it, and no other. */
  lemma RowPrograms(s: State, row: Row)
    ensures var t := SetRow(s, row);
            forall r: RegionNo :: t.regions[r] == if r == t.rnr then RegionOf(row) else s.regions[r]
  {
    forall r: RegionNo
      ensures var t := SetRow(s, row); t.regions[r] == if r == t.rnr then RegionOf(row) else s.regions[r]
    {
      RowEffect(s, row, r);
    }
  }

  /** A row that names no region programs exactly the region of the number in RNR. */
  lemma SetsNumbered(s: State, word: bv32, n: RegionNo, row: Row)
    requires IsNumber(word, n) && Unnamed(row.rbar)
    ensures var t := SetRow(SelectRegion(s, word), row);
            t.rnr == n && forall r: RegionNo :: t.regions[r] == if r == n then RegionOf(row) else s.regions[r]
  {
    RnrSelects(word, n);
    UnnamedStays(SelectRegion(s, word), row);
    RowPrograms(SelectRegion(s, word), row);
  }

  /** A row made with ARM_MPU_RBAR programs exactly the region of the number given there. */
  lemma SetsNamed(s: State, region: bv32, base: bv32, n: RegionNo, rasr: bv32)
    requires IsNumber(region, n) && n < 16
    ensures var t := SetRow(s, Row(Rbar(region, base), rasr));
            t.rnr == n && forall r: RegionNo ::
              t.regions[r] == if r == n then Region(base & RBAR_ADDR_MSK, rasr) else s.regions[r]
  {
    RbarNames(region, base, n);
    RowPrograms(s, Row(Rbar(region, base), rasr));
  }

  class Unit {
    var state: State
    /** Every register store so far, in order, and the state they started from. */
    ghost var log: seq<RegWrite>
    ghost var start: State

    ghost predicate Replayed()
      reads this
    {
      state == Replay(start, log)
    }

    constructor (state: State)
      ensures Replayed() && this.state == state && start == state && log == []
    {
      this.state, start, log := state, state, [];
    }

    method Store(w: RegWrite)
      requires Replayed() && (w.Window? ==> w.offset < 8)
      modifies this`state, this`log
      ensures Replayed() && log == old(log) + [w]
      ensures state == Write(old(state), w)
    {
      var next := Write(state, w);
      assert Replay(start, log + [w]) == next by {
        ReplayLast(start, log, w);
      }
      state := next;
      log := log + [w];
    }

    method ClrRegion(rnr: bv32)
      requires Replayed()
      modifies this`state, this`log
      ensures Replayed() && log == old(log) + [Rnr(rnr), Window(1, 0)]
      ensures state.rnr == RegionOfRnr(rnr) && (rnr < 256 ==> state.rnr == rnr as nat)
      ensures forall r: RegionNo :: state.regions[r] ==
                if r == state.rnr then old(state).regions[r].(attributes := 0) else old(state).regions[r]
    {
      Store(Rnr(rnr));
      Store(Window(1, 0));
    }

    method SetRegion(rbar: bv32, rasr: bv32)
      requires Replayed()
      modifies this`state, this`log
      ensures Replayed() && log == old(log) + [Window(0, rbar), Window(1, rasr)]
      ensures state == SetRow(old(state), Row(rbar, rasr))
      ensures Unnamed(rbar) ==> state.rnr == old(state).rnr
      ensures forall r: RegionNo :: state.regions[r] ==
                if r == state.rnr then RegionOf(Row(rbar, rasr)) else old(state).regions[r]
    {
      RowPrograms(state, Row(rbar, rasr));
      if Unnamed(rbar) {
        UnnamedStays(state, Row(rbar, rasr));
      }
      Store(Window(0, rbar));
      Store(Window(1, rasr));
    }

    method SetRegionEx(rnr: bv32, rbar: bv32, rasr: bv32)
      requires Replayed()
      modifies this`state, this`log
      ensures Replayed() && log == old(log) + [Rnr(rnr), Window(0, rbar), Window(1, rasr)]
      ensures state == SetRow(SelectRegion(old(state), rnr), Row(rbar, rasr))
      ensures Unnamed(rbar) ==>
                state.rnr == RegionOfRnr(rnr) && (rnr < 256 ==> state.rnr == rnr as nat)
      ensures forall r: RegionNo :: state.regions[r] ==
                if r == state.rnr then RegionOf(Row(rbar, rasr)) else old(state).regions[r]
    {
      RowPrograms(SelectRegion(state, rnr), Row(rbar, rasr));
      if Unnamed(rbar) {
        UnnamedStays(SelectRegion(state, rnr), Row(rbar, rasr));
      }
      Store(Rnr(rnr));
      Store(Window(0, rbar));
      Store(Window(1, rasr));
    }

    /** Copies n words, from a given one on, to the registers from RBAR on, in order. Every store
        stays inside the eight-word window. */
    method OrderedMemcpy(src: seq<bv32>, from: nat, n: nat)
      requires Replayed() && from + n <= |src| && n <= 8
      modifies this`state, this`log
      ensures Replayed() && log == old(log) + CopyWrites(src, from, n)
    {
      var i := 0;
      while i < n
        invariant i <= n && Replayed()
        invariant log == old(log) + CopyWrites(src, from, i)
      {
        Store(Window(i, src[from + i]));
        i := i + 1;
      }
    }

    method LoadWords(words: seq<bv32>, cnt: nat)
      requires Replayed() && 2 * cnt <= |words|
      modifies this`state, this`log
      ensures Replayed() && log == old(log) + LoadWrites(words, 2 * cnt)
    {
      var chunk, left := 0, cnt;
      while left > 4
        invariant 4 * chunk + left == cnt && Replayed()
        invariant log == old(log) + LoadWrites(words, 8 * chunk)
      {
        ChunkLog(old(log), words, chunk, 8);
        OrderedMemcpy(words, 8 * chunk, 4 * 2);
        chunk := chunk + 1;
        left := left - 4;
      }
      ChunkLog(old(log), words, chunk, 2 * left);
      OrderedMemcpy(words, 8 * chunk, left * 2);
    }

    /** ARM_MPU_Load: chunks of four rows through the window, and then the rest. */
    method Load(table: seq<Row>, cnt: nat)
      requires Replayed() && cnt <= |table|
      modifies this`state, this`log
      ensures Replayed() && log == old(log) + LoadWrites(Words(table), 2 * cnt)
      ensures state == SetRows(old(state), table, cnt)
    {
      LoadSetsRows(state, table, cnt);
      ReplayAppend(start, log, LoadWrites(Words(table), 2 * cnt));
      LoadWords(Words(table), cnt);
    }

  }

  // ---- last row wins ----

  /** The region row k programs: the one it names, or else the one selected before it. */
  function Target(rnr: RegionNo, rows: seq<Row>, k: nat): RegionNo
    requires k < |rows|
  {
    if rows[k].rbar & RBAR_VALID_MSK != 0 then RegionOfRbar(rows[k].rbar)
    else if k == 0 then rnr
    else Target(rnr, rows, k - 1)
  }

  lemma {:induction false} SelectedAfter(s: State, rows: seq<Row>, n: nat)
    requires n <= |rows|
    ensures SetRows(s, rows, n).rnr == if n == 0 then s.rnr else Target(s.rnr, rows, n - 1)
  {
    if n == 0 {
    } else {
      SelectedAfter(s, rows, n - 1);
    }
  }

  /** Row k is the last of the first n rows meant for region r. */
  ghost predicate LastFor(rnr: RegionNo, rows: seq<Row>, n: nat, k: nat, r: RegionNo)
    requires n <= |rows|
  {
    k < n && Target(rnr, rows, k) == r && forall j | k < j < n :: Target(rnr, rows, j) != r
  }

  lemma {:induction false} UnnamedKept(s: State, rows: seq<Row>, n: nat, r: RegionNo)
    requires n <= |rows| && forall k: nat | k < n :: Target(s.rnr, rows, k) != r
    ensures SetRows(s, rows, n).regions[r] == s.regions[r]
  {
    if n == 0 {
    } else {
      UnnamedKept(s, rows, n - 1, r);
      SelectedAfter(s, rows, n);
      RowEffect(SetRows(s, rows, n - 1), rows[n - 1], r);
    }
  }

  lemma {:induction false} LastRowHeld(s: State, rows: seq<Row>, n: nat, k: nat, r: RegionNo)
    requires n <= |rows| && LastFor(s.rnr, rows, n, k, r)
    ensures SetRows(s, rows, n).regions[r] == RegionOf(rows[k])
  {
    SelectedAfter(s, rows, n);
    RowEffect(SetRows(s, rows, n - 1), rows[n - 1], r);
    if k == n - 1 {
    } else {
      LastRowHeld(s, rows, n - 1, k, r);
    }
  }

  /** After a load each region holds the last row meant for it, and a region no row was meant for
      keeps its contents, whether or not the rows name their regions. */
  lemma LastRowWins(s: State, rows: seq<Row>, n: nat, r: RegionNo)
    requires n <= |rows|
    ensures forall k: nat | LastFor(s.rnr, rows, n, k, r) ::
              SetRows(s, rows, n).regions[r] == RegionOf(rows[k])
    ensures (forall k: nat | k < n :: Target(s.rnr, rows, k) != r) ==>
              SetRows(s, rows, n).regions[r] == s.regions[r]
  {
    forall k: nat | LastFor(s.rnr, rows, n, k, r)
      ensures SetRows(s, rows, n).regions[r] == RegionOf(rows[k])
    {
      LastRowHeld(s, rows, n, k, r);
    }
    if forall k: nat | k < n :: Target(s.rnr, rows, k) != r {
      UnnamedKept(s, rows, n, r);
    }
  }

  /** A row whose base word comes from ARM_MPU_RBAR is meant for the region given there. */
  lemma NamedRowTargets(rnr: RegionNo, rows: seq<Row>, k: nat, region: bv32, base: bv32)
    requires k < |rows| && rows[k].rbar == Rbar(region, base)
    ensures Target(rnr, rows, k) == RegionOfRbar(region)
    ensures forall r: RegionNo | IsNumber(region, r) && r < 16 :: Target(rnr, rows, k) == r
    ensures rows[k].rbar & RBAR_ADDR_MSK == base & 0xFFFF_FFE0
  {
    forall r: RegionNo | IsNumber(region, r) && r < 16 ensures Target(rnr, rows, k) == r {
      RbarNames(region, base, r);
    }
  }
}
