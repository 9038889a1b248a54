/**
  `__cmsis_start`: the copy table and zero table loops that set up memory before `main`. Memory is a
  sequence of words, the word at index k having byte address 4 * k, and the tables lie in it.
 */
module StartUp {
  import opened Word32

  /** Rows hold word indices into memory. */
  datatype CopyRow = CopyRow(src: nat, dest: nat, wlen: Word)
  datatype ZeroRow = ZeroRow(dest: nat, wlen: Word)

  predicate Inside(start: nat, wlen: nat, i: nat) {
    start <= i < start + wlen
  }

  predicate Apart(a: nat, alen: nat, b: nat, blen: nat) {
    a + alen <= b || b + blen <= a || alen == 0 || blen == 0
  }

  predicate CopyFits(r: CopyRow, size: nat) {
    r.src + r.wlen <= size && r.dest + r.wlen <= size
  }

  predicate ZeroFits(r: ZeroRow, size: nat) {
    r.dest + r.wlen <= size
  }

  ghost predicate CopiesFit(rows: seq<CopyRow>, size: nat) {
    forall k | 0 <= k < |rows| :: CopyFits(rows[k], size)
  }

  ghost predicate ZerosFit(rows: seq<ZeroRow>, size: nat) {
    forall k | 0 <= k < |rows| :: ZeroFits(rows[k], size)
  }

  // ---- the tables as words of memory ----

  /** A row of the copy table is three words: two pointers and a length. */
  function CopyRowAt(m: seq<Word>, at: nat): CopyRow
    requires at + 3 <= |m|
  {
    CopyRow(m[at] / 4, m[at + 1] / 4, m[at + 2])
  }

  function CopyRows(m: seq<Word>, table: nat, n: nat): (rows: seq<CopyRow>)
    requires table + 3 * n <= |m|
    ensures |rows| == n
    ensures forall k | 0 <= k < n ::
              rows[k] == CopyRow(m[table + 3 * k] / 4, m[table + 3 * k + 1] / 4, m[table + 3 * k + 2])
  {
    seq(n, k requires 0 <= k < n => CopyRowAt(m, table + 3 * k))
  }

  /** A row of the zero table is two words: a pointer and a length. */
  function ZeroRowAt(m: seq<Word>, at: nat): ZeroRow
    requires at + 2 <= |m|
  {
    ZeroRow(m[at] / 4, m[at + 1])
  }

  function ZeroRows(m: seq<Word>, table: nat, n: nat): (rows: seq<ZeroRow>)
    requires table + 2 * n <= |m|
    ensures |rows| == n
    ensures forall k | 0 <= k < n :: rows[k] == ZeroRow(m[table + 2 * k] / 4, m[table + 2 * k + 1])
  {
    seq(n, k requires 0 <= k < n => ZeroRowAt(m, table + 2 * k))
  }

  /** Pointers to words are aligned. */
  predicate CopyAligned(m: seq<Word>, table: nat, k: nat)
    requires table + 3 * k + 3 <= |m|
  {
    m[table + 3 * k] % 4 == 0 && m[table + 3 * k + 1] % 4 == 0
  }

  predicate ZeroAligned(m: seq<Word>, table: nat, k: nat)
    requires table + 2 * k + 2 <= |m|
  {
    m[table + 2 * k] % 4 == 0
  }

  ghost predicate CopyTableFits(m: seq<Word>, table: nat, n: nat) {
    && table + 3 * n <= |m|
    && (forall k: nat | k < n :: CopyAligned(m, table, k))
    && CopiesFit(CopyRows(m, table, n), |m|)
  }

  ghost predicate ZeroTableFits(m: seq<Word>, table: nat, n: nat) {
    && table + 2 * n <= |m|
    && (forall k: nat | k < n :: ZeroAligned(m, table, k))
    && ZerosFit(ZeroRows(m, table, n), |m|)
  }

  /** No row writes to the words given. */
  ghost predicate CopiesSpare(rows: seq<CopyRow>, start: nat, size: nat) {
    forall k | 0 <= k < |rows| :: Apart(rows[k].dest, rows[k].wlen, start, size)
  }

  /** No row writes to itself or to a later row of its table, which are still to be read. */
  ghost predicate CopiesSpareRest(rows: seq<CopyRow>, table: nat) {
    forall k | 0 <= k < |rows| :: Apart(rows[k].dest, rows[k].wlen, table + 3 * k, 3 * (|rows| - k))
  }

  ghost predicate ZerosSpareRest(rows: seq<ZeroRow>, table: nat) {
    forall k | 0 <= k < |rows| :: Apart(rows[k].dest, rows[k].wlen, table + 2 * k, 2 * (|rows| - k))
  }

  // ---- what the loops do, word by word, for any tables ----

  /** The first n words of a row copied in ascending order; source and destination may overlap. */
  function CopyWords(m: seq<Word>, r: CopyRow, n: nat): (m': seq<Word>)
    requires CopyFits(r, |m|) && n <= r.wlen
    ensures |m'| == |m|
  {
    if n == 0 then m
    else
      var p := CopyWords(m, r, n - 1);
      p[r.dest + n - 1 := p[r.src + n - 1]]
  }

  function CopyTable(m: seq<Word>, rows: seq<CopyRow>): (m': seq<Word>)
    requires CopiesFit(rows, |m|)
    ensures |m'| == |m|
  {
    if rows == [] then m
    else
      var n := |rows| - 1;
      CopyWords(CopyTable(m, rows[..n]), rows[n], rows[n].wlen)
  }

  function ZeroWords(m: seq<Word>, r: ZeroRow, n: nat): (m': seq<Word>)
    requires ZeroFits(r, |m|) && n <= r.wlen
    ensures |m'| == |m|
  {
    if n == 0 then m else ZeroWords(m, r, n - 1)[r.dest + n - 1 := 0]
  }

  function ZeroTable(m: seq<Word>, rows: seq<ZeroRow>): (m': seq<Word>)
    requires ZerosFit(rows, |m|)
    ensures |m'| == |m|
  {
    if rows == [] then m
    else
      var n := |rows| - 1;
      ZeroWords(ZeroTable(m, rows[..n]), rows[n], rows[n].wlen)
  }

  // ---- what that comes to for the tables a linker script makes ----

  /** Destinations are pairwise disjoint and disjoint from every source. */
  ghost predicate Separate(copies: seq<CopyRow>, zeros: seq<ZeroRow>) {
    && (forall i, j | 0 <= i < j < |copies| :: Apart(copies[i].dest, copies[i].wlen, copies[j].dest, copies[j].wlen))
    && (forall i, j | 0 <= i < |copies| && 0 <= j < |copies| ::
          Apart(copies[i].dest, copies[i].wlen, copies[j].src, copies[j].wlen))
    && (forall i, j | 0 <= i < |copies| && 0 <= j < |zeros| ::
          Apart(copies[i].dest, copies[i].wlen, zeros[j].dest, zeros[j].wlen))
  }

  lemma {:induction false} CopyRowEffect(m: seq<Word>, r: CopyRow, n: nat, i: nat)
    requires CopyFits(r, |m|) && n <= r.wlen && i < |m|
    requires Apart(r.dest, r.wlen, r.src, r.wlen)
    ensures CopyWords(m, r, n)[i] == if Inside(r.dest, n, i) then m[r.src + (i - r.dest)] else m[i]
  {
    if n == 0 {
    } else {
      CopyRowEffect(m, r, n - 1, i);
      CopyRowEffect(m, r, n - 1, r.src + n - 1);
    }
  }

  lemma {:induction false} ZeroRowEffect(m: seq<Word>, r: ZeroRow, n: nat, i: nat)
    requires ZeroFits(r, |m|) && n <= r.wlen && i < |m|
    ensures ZeroWords(m, r, n)[i] == if Inside(r.dest, n, i) then 0 else m[i]
  {
    if n == 0 {
    } else {
      ZeroRowEffect(m, r, n - 1, i);
    }
  }

  /** The row that writes word i, if any. */
  ghost predicate Writes(rows: seq<CopyRow>, k: nat, i: nat) {
    k < |rows| && Inside(rows[k].dest, rows[k].wlen, i)
  }

  lemma {:induction false} CopyRowSpares(m: seq<Word>, r: CopyRow, n: nat, i: nat)
    requires CopyFits(r, |m|) && n <= r.wlen && i < |m| && !Inside(r.dest, n, i)
    ensures CopyWords(m, r, n)[i] == m[i]
  {
    if n == 0 {
    } else {
      CopyRowSpares(m, r, n - 1, i);
    }
  }

  /** Whatever the rows overlap, a word that none of them writes keeps its value. */
  lemma {:induction false} CopyTableSpares(m: seq<Word>, rows: seq<CopyRow>, i: nat)
    requires CopiesFit(rows, |m|) && i < |m|
    requires forall k: nat :: !Writes(rows, k, i)
    ensures CopyTable(m, rows)[i] == m[i]
    decreases |rows|
  {
    if rows == [] {
    } else {
      var n := |rows| - 1;
      forall k: nat ensures !Writes(rows[..n], k, i) {
        assert !Writes(rows, k, i);
      }
      assert !Writes(rows, n, i);
      CopyTableSpares(m, rows[..n], i);
      CopyRowSpares(CopyTable(m, rows[..n]), rows[n], rows[n].wlen, i);
    }
  }

  lemma PrefixSeparate(rows: seq<CopyRow>, n: nat, size: nat)
    requires CopiesFit(rows, size) && Separate(rows, []) && n <= |rows|
    ensures CopiesFit(rows[..n], size) && Separate(rows[..n], [])
  {}

  lemma SourceSpared(rows: seq<CopyRow>, n: nat, j: nat)
    requires Separate(rows, []) && n < |rows| && Inside(rows[n].src, rows[n].wlen, j)
    ensures forall q: nat :: !Writes(rows[..n], q, j)
  {}

  lemma {:induction false} CopyTableCopies(m: seq<Word>, rows: seq<CopyRow>, k: nat, i: nat)
    requires CopiesFit(rows, |m|) && Separate(rows, []) && i < |m|
    requires Writes(rows, k, i)
    ensures CopyTable(m, rows)[i] == m[rows[k].src + (i - rows[k].dest)]
    decreases |rows|
  {
    var n := |rows| - 1;
    PrefixSeparate(rows, n, |m|);
    var p, last := CopyTable(m, rows[..n]), rows[n];
    CopyRowEffect(p, last, last.wlen, i);
    if k < n {
      assert Apart(rows[k].dest, rows[k].wlen, rows[n].dest, rows[n].wlen);
      CopyTableCopies(m, rows[..n], k, i);
    } else {
      var j := last.src + (i - last.dest);
      SourceSpared(rows, n, j);
      CopyTableSpares(m, rows[..n], j);
    }
  }

  ghost predicate Zeroes(rows: seq<ZeroRow>, i: nat) {
    exists k: nat :: k < |rows| && Inside(rows[k].dest, rows[k].wlen, i)
  }

  lemma {:induction false} ZeroTableEffect(m: seq<Word>, rows: seq<ZeroRow>, i: nat)
    requires ZerosFit(rows, |m|)
    requires i < |m|
    ensures ZeroTable(m, rows)[i] == if Zeroes(rows, i) then 0 else m[i]
    decreases |rows|
  {
    if rows == [] {
    } else {
      var n := |rows| - 1;
      ZeroTableEffect(m, rows[..n], i);
      ZeroRowEffect(ZeroTable(m, rows[..n]), rows[n], rows[n].wlen, i);
      if Zeroes(rows, i) {
        var k: nat :| k < |rows| && Inside(rows[k].dest, rows[k].wlen, i);
        if k < n {
          assert rows[..n][k] == rows[k];
        }
      }
      if Zeroes(rows[..n], i) {
        var k: nat :| k < n && Inside(rows[..n][k].dest, rows[..n][k].wlen, i);
        assert rows[..n][k] == rows[k];
      }
    }
  }

  /** A copied word equals the original source word, a zeroed word is zero, and every other word
      is unchanged. */
  ghost predicate SetUp(m: seq<Word>, copies: seq<CopyRow>, zeros: seq<ZeroRow>, i: nat, word: Word)
    requires CopiesFit(copies, |m|) && i < |m|
  {
    && (forall k: nat | Writes(copies, k, i) :: word == m[copies[k].src + (i - copies[k].dest)])
    && (Zeroes(zeros, i) ==> word == 0)
    && ((forall k: nat :: !Writes(copies, k, i)) && !Zeroes(zeros, i) ==> word == m[i])
  }

  /** With separate tables every word ends as its table entry says. */
  lemma StartUpEffect(m: seq<Word>, copies: seq<CopyRow>, zeros: seq<ZeroRow>, i: nat)
    requires CopiesFit(copies, |m|) && ZerosFit(zeros, |m|)
    requires Separate(copies, zeros) && i < |m|
    ensures SetUp(m, copies, zeros, i, ZeroTable(CopyTable(m, copies), zeros)[i])
  {
    ZeroTableEffect(CopyTable(m, copies), zeros, i);
    forall k: nat | Writes(copies, k, i)
      ensures !Zeroes(zeros, i)
      ensures CopyTable(m, copies)[i] == m[copies[k].src + (i - copies[k].dest)]
    {
      CopyTableCopies(m, copies, k, i);
    }
    if forall k: nat :: !Writes(copies, k, i) {
      CopyTableSpares(m, copies, i);
    }
  }

  // ---- the same in the words of memory themselves ----

  /** Word i of the block that row k of a copy table names has arrived: a row is a source address, a
      destination address and a length in words. */
  predicate WordCopied(m: seq<Word>, m': seq<Word>, table: nat, k: nat, i: nat)
    requires table + 3 * k + 3 <= |m|
  {
    var src, dest := m[table + 3 * k] / 4 + i, m[table + 3 * k + 1] / 4 + i;
    src < |m| && dest < |m'| && m'[dest] == m[src]
  }

  /** Word i of the block that row k of a zero table names is zero: a row is a destination address
      and a length in words. */
  predicate WordZeroed(m: seq<Word>, m': seq<Word>, table: nat, k: nat, i: nat)
    requires table + 2 * k + 2 <= |m|
  {
    var dest := m[table + 2 * k] / 4 + i;
    dest < |m'| && m'[dest] == 0
  }

  ghost predicate TableCopied(m: seq<Word>, m': seq<Word>, table: nat, n: nat)
    requires table + 3 * n <= |m|
  {
    forall k: nat, i: nat | k < n && i < m[table + 3 * k + 2] :: WordCopied(m, m', table, k, i)
  }

  ghost predicate TableZeroed(m: seq<Word>, m': seq<Word>, table: nat, n: nat)
    requires table + 2 * n <= |m|
  {
    forall k: nat, i: nat | k < n && i < m[table + 2 * k + 1] :: WordZeroed(m, m', table, k, i)
  }

  lemma CopyTableMeans(m: seq<Word>, table: nat, n: nat)
    requires CopyTableFits(m, table, n) && Separate(CopyRows(m, table, n), [])
    ensures TableCopied(m, CopyTable(m, CopyRows(m, table, n)), table, n)
  {
    var rows := CopyRows(m, table, n);
    forall k: nat, i: nat | k < n && i < m[table + 3 * k + 2]
      ensures WordCopied(m, CopyTable(m, rows), table, k, i)
    {
      assert CopyFits(rows[k], |m|);
      assert Writes(rows, k, rows[k].dest + i);
      CopyTableCopies(m, rows, k, rows[k].dest + i);
    }
  }

  lemma ZeroTableMeans(m: seq<Word>, p: seq<Word>, table: nat, n: nat)
    requires ZeroTableFits(m, table, n) && |p| == |m|
    ensures TableZeroed(m, ZeroTable(p, ZeroRows(m, table, n)), table, n)
  {
    var rows := ZeroRows(m, table, n);
    forall k: nat, i: nat | k < n && i < m[table + 2 * k + 1]
      ensures WordZeroed(m, ZeroTable(p, rows), table, k, i)
    {
      assert ZeroFits(rows[k], |m|);
      assert k < |rows| && Inside(rows[k].dest, rows[k].wlen, rows[k].dest + i);
      ZeroTableEffect(p, rows, rows[k].dest + i);
    }
  }

  lemma StartUpMeans(m: seq<Word>, copyTable: nat, copyCount: nat, zeroTable: nat, zeroCount: nat)
    requires CopyTableFits(m, copyTable, copyCount) && ZeroTableFits(m, zeroTable, zeroCount)
    requires Separate(CopyRows(m, copyTable, copyCount), ZeroRows(m, zeroTable, zeroCount))
    ensures var m' := ZeroTable(CopyTable(m, CopyRows(m, copyTable, copyCount)), ZeroRows(m, zeroTable, zeroCount));
            TableCopied(m, m', copyTable, copyCount) && TableZeroed(m, m', zeroTable, zeroCount)
  {
    var copies, zeros := CopyRows(m, copyTable, copyCount), ZeroRows(m, zeroTable, zeroCount);
    var m' := ZeroTable(CopyTable(m, copies), zeros);
    ZeroTableMeans(m, CopyTable(m, copies), zeroTable, zeroCount);
    forall k: nat, i: nat | k < copyCount && i < m[copyTable + 3 * k + 2]
      ensures WordCopied(m, m', copyTable, k, i)
    {
      assert CopyFits(copies[k], |m|);
      assert Writes(copies, k, copies[k].dest + i);
      StartUpEffect(m, copies, zeros, copies[k].dest + i);
    }
  }

  // ---- the loops, which read the tables from memory as they go ----

  lemma CopyRowKeepsRow(m: seq<Word>, r: CopyRow, n: nat, p: nat)
    requires CopyFits(r, |m|) && n <= r.wlen && p + 3 <= |m| && Apart(r.dest, r.wlen, p, 3)
    ensures CopyRowAt(CopyWords(m, r, n), p) == CopyRowAt(m, p)
  {
    forall j | p <= j < p + 3 ensures CopyWords(m, r, n)[j] == m[j] {
      CopyRowSpares(m, r, n, j);
    }
  }

  /** The inner loop for the row at p. */
  method CopyRowLoop(mem: array<Word>, p: nat)
    requires p + 3 <= mem.Length
    requires var r := CopyRowAt(mem[..], p); CopyFits(r, mem.Length) && Apart(r.dest, r.wlen, p, 3)
    modifies mem
    ensures var m := old(mem[..]); mem[..] == CopyWords(m, CopyRowAt(m, p), CopyRowAt(m, p).wlen)
  {
    ghost var m, row := mem[..], CopyRowAt(mem[..], p);
    var i := 0;
    while i < mem[p + 2]
      invariant i <= row.wlen && CopyRowAt(mem[..], p) == row
      invariant mem[..] == CopyWords(m, row, i)
    {
      mem[mem[p + 1] / 4 + i] := mem[mem[p] / 4 + i];
      i := i + 1;
      CopyRowKeepsRow(m, row, i, p);
    }
  }

  lemma CopyTableKeepsRow(m: seq<Word>, table: nat, n: nat, k: nat)
    requires CopyTableFits(m, table, n) && CopiesSpareRest(CopyRows(m, table, n), table) && k < n
    ensures CopyRowAt(CopyTable(m, CopyRows(m, table, n)[..k]), table + 3 * k) == CopyRows(m, table, n)[k]
  {
    var rows := CopyRows(m, table, n)[..k];
    forall j: nat | table + 3 * k <= j < table + 3 * k + 3 ensures CopyTable(m, rows)[j] == m[j] {
      CopyTableSpares(m, rows, j);
    }
  }

  lemma CopyOneMore(m: seq<Word>, rows: seq<CopyRow>, k: nat)
    requires CopiesFit(rows, |m|) && k < |rows|
    ensures CopyTable(m, rows[..k + 1]) == CopyWords(CopyTable(m, rows[..k]), rows[k], rows[k].wlen)
  {
    assert rows[..k + 1][..k] == rows[..k];
  }

  /** The first pair of loops. */
  method CopyLoops(mem: array<Word>, table: nat, n: nat)
    requires CopyTableFits(mem[..], table, n)
    requires CopiesSpareRest(CopyRows(mem[..], table, n), table)
    modifies mem
    ensures mem[..] == CopyTable(old(mem[..]), CopyRows(old(mem[..]), table, n))
    ensures old(Separate(CopyRows(mem[..], table, n), [])) ==> TableCopied(old(mem[..]), mem[..], table, n)
  {
    ghost var m, rows, k := mem[..], CopyRows(mem[..], table, n), 0;
    var p := table;
    while p < table + 3 * n
      invariant k <= n && p == table + 3 * k
      invariant mem[..] == CopyTable(m, rows[..k])
    {
      CopyTableKeepsRow(m, table, n, k);
      CopyOneMore(m, rows, k);
      assert Apart(rows[k].dest, rows[k].wlen, p, 3 * (n - k));
      CopyRowLoop(mem, p);
      k, p := k + 1, p + 3;
    }
    assert rows[..k] == rows;
    if Separate(rows, []) {
      CopyTableMeans(m, table, n);
    }
  }

  lemma ZeroRowKeepsRow(m: seq<Word>, r: ZeroRow, n: nat, p: nat)
    requires ZeroFits(r, |m|) && n <= r.wlen && p + 2 <= |m| && Apart(r.dest, r.wlen, p, 2)
    ensures ZeroRowAt(ZeroWords(m, r, n), p) == ZeroRowAt(m, p)
  {
    forall j | p <= j < p + 2 ensures ZeroWords(m, r, n)[j] == m[j] {
      ZeroRowEffect(m, r, n, j);
    }
  }

  /** The inner loop for the row at p. */
  method ZeroRowLoop(mem: array<Word>, p: nat)
    requires p + 2 <= mem.Length
    requires var r := ZeroRowAt(mem[..], p); ZeroFits(r, mem.Length) && Apart(r.dest, r.wlen, p, 2)
    modifies mem
    ensures var m := old(mem[..]); mem[..] == ZeroWords(m, ZeroRowAt(m, p), ZeroRowAt(m, p).wlen)
  {
    ghost var m, row := mem[..], ZeroRowAt(mem[..], p);
    var i := 0;
    while i < mem[p + 1]
      invariant i <= row.wlen && ZeroRowAt(mem[..], p) == row
      invariant mem[..] == ZeroWords(m, row, i)
    {
      mem[mem[p] / 4 + i] := 0;
      i := i + 1;
      ZeroRowKeepsRow(m, row, i, p);
    }
  }

  lemma ZeroTableKeepsRow(m: seq<Word>, table: nat, n: nat, k: nat)
    requires ZeroTableFits(m, table, n) && ZerosSpareRest(ZeroRows(m, table, n), table) && k < n
    ensures ZeroRowAt(ZeroTable(m, ZeroRows(m, table, n)[..k]), table + 2 * k) == ZeroRows(m, table, n)[k]
  {
    var rows := ZeroRows(m, table, n)[..k];
    forall j: nat | table + 2 * k <= j < table + 2 * k + 2 ensures ZeroTable(m, rows)[j] == m[j] {
      ZeroTableEffect(m, rows, j);
    }
  }

  lemma ZeroOneMore(m: seq<Word>, rows: seq<ZeroRow>, k: nat)
    requires ZerosFit(rows, |m|) && k < |rows|
    ensures ZeroTable(m, rows[..k + 1]) == ZeroWords(ZeroTable(m, rows[..k]), rows[k], rows[k].wlen)
  {
    assert rows[..k + 1][..k] == rows[..k];
  }

  /** The second pair of loops. */
  method ZeroLoops(mem: array<Word>, table: nat, n: nat)
    requires ZeroTableFits(mem[..], table, n)
    requires ZerosSpareRest(ZeroRows(mem[..], table, n), table)
    modifies mem
    ensures mem[..] == ZeroTable(old(mem[..]), ZeroRows(old(mem[..]), table, n))
    ensures TableZeroed(old(mem[..]), mem[..], table, n)
  {
    ghost var m, rows, k := mem[..], ZeroRows(mem[..], table, n), 0;
    var p := table;
    while p < table + 2 * n
      invariant k <= n && p == table + 2 * k
      invariant mem[..] == ZeroTable(m, rows[..k])
    {
      ZeroTableKeepsRow(m, table, n, k);
      ZeroOneMore(m, rows, k);
      assert Apart(rows[k].dest, rows[k].wlen, p, 2 * (n - k));
      ZeroRowLoop(mem, p);
      k, p := k + 1, p + 2;
    }
    assert rows[..k] == rows;
    ZeroTableMeans(m, m, table, n);
  }

  lemma ZeroTableKept(m: seq<Word>, copies: seq<CopyRow>, table: nat, n: nat)
    requires CopiesFit(copies, |m|) && ZeroTableFits(m, table, n) && CopiesSpare(copies, table, 2 * n)
    ensures var m' := CopyTable(m, copies);
            ZeroTableFits(m', table, n) && ZeroRows(m', table, n) == ZeroRows(m, table, n)
  {
    var m' := CopyTable(m, copies);
    forall i: nat | table <= i < table + 2 * n ensures m'[i] == m[i] {
      CopyTableSpares(m, copies, i);
    }
    forall k: nat | k < n
      ensures ZeroAligned(m', table, k)
      ensures ZeroRowAt(m', table + 2 * k) == ZeroRowAt(m, table + 2 * k)
    {
      assert ZeroAligned(m, table, k);
    }
    assert ZeroRows(m', table, n) == ZeroRows(m, table, n);
  }

  /** The part of `__cmsis_start` before it jumps to `_start`. */
  method CmsisStart(mem: array<Word>, copyTable: nat, copyCount: nat, zeroTable: nat, zeroCount: nat)
    requires CopyTableFits(mem[..], copyTable, copyCount) && ZeroTableFits(mem[..], zeroTable, zeroCount)
    requires CopiesSpareRest(CopyRows(mem[..], copyTable, copyCount), copyTable)
    requires CopiesSpare(CopyRows(mem[..], copyTable, copyCount), zeroTable, 2 * zeroCount)
    requires ZerosSpareRest(ZeroRows(mem[..], zeroTable, zeroCount), zeroTable)
    modifies mem
    ensures var m := old(mem[..]);
            var copies, zeros := CopyRows(m, copyTable, copyCount), ZeroRows(m, zeroTable, zeroCount);
            && mem[..] == ZeroTable(CopyTable(m, copies), zeros)
            && (Separate(copies, zeros) ==>
                  && TableCopied(m, mem[..], copyTable, copyCount)
                  && TableZeroed(m, mem[..], zeroTable, zeroCount)
                  && forall i: nat | i < mem.Length :: SetUp(m, copies, zeros, i, mem[i]))
  {
    ghost var m := mem[..];
    ghost var copies, zeros := CopyRows(m, copyTable, copyCount), ZeroRows(m, zeroTable, zeroCount);
    ZeroTableKept(m, copies, zeroTable, zeroCount);
    CopyLoops(mem, copyTable, copyCount);
    ZeroLoops(mem, zeroTable, zeroCount);
    if Separate(copies, zeros) {
      StartUpMeans(m, copyTable, copyCount, zeroTable, zeroCount);
      forall i: nat | i < mem.Length ensures SetUp(m, copies, zeros, i, mem[..][i]) {
        StartUpEffect(m, copies, zeros, i);
      }
    }
  }
}
