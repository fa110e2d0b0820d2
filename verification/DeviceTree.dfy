/**
 Device-tree cells: decoding `reg` and `iommus` properties (scripts/collect_quick.py) and
 the other program's reading, printing and translating of the same addresses
 (scripts/ane_soc_from_collect.py).  Sections 2.3.5 and 2.3.6 of the Devicetree
 Specification v0.4 give the meaning of #address-cells, #size-cells and reg.
 */
module DeviceTree {
  import opened Arith
  import opened Octets
  import opened Positional
  import opened RegText
  import opened Sequences
  import opened Text
  import opened Wrappers

  const CELL: nat := 0x1_0000_0000

  // ----- Cells and bytes -----

  function ToNats(b: Bytes): (ds: seq<nat>)
    ensures |ds| == |b| && AreDigits(ds, 256)
  {
    seq(|b|, i requires 0 <= i < |b| => b[i] as nat)
  }

  function ToBytes(ds: seq<nat>): (b: Bytes)
    requires AreDigits(ds, 256)
    ensures |b| == |ds| && ToNats(b) == ds
  {
    seq(|ds|, i requires 0 <= i < |ds| => ds[i] as byte)
  }

  predicate AreCells(cells: seq<nat>) {
    AreDigits(cells, CELL)
  }

  /** int.from_bytes(b, "big"). */
  function BigEndian(b: Bytes): nat {
    Number(ToNats(b), 256)
  }

  function CellBytes(c: nat): Bytes {
    ToBytes(Digits(c, 4, 256))
  }

  function Chunks(raw: Bytes): (cells: seq<nat>)
    requires |raw| % 4 == 0
    ensures |cells| == |raw| / 4
  {
    if raw == [] then [] else [BigEndian(raw[..4])] + Chunks(raw[4..])
  }

  /** collect_quick.py:257-262. */
  function U32s(raw: Bytes): Option<seq<nat>> {
    if |raw| % 4 != 0 || raw == [] then None else Some(Chunks(raw))
  }

  function Encode(cells: seq<nat>): (raw: Bytes)
    ensures |raw| == 4 * |cells|
  {
    if cells == [] then [] else CellBytes(cells[0]) + Encode(cells[1..])
  }

  lemma Powers()
    ensures Power(256, 4) == CELL && Power(CELL, 0) == 1 && Power(CELL, 1) == CELL && Power(CELL, 2) == CELL * CELL
  {
    assert Power(256, 1) == 256 && Power(256, 2) == 256 * 256 && Power(256, 3) == 256 * 256 * 256;
    assert Power(CELL, 0) == 1;
  }

  lemma CellReadsBack(c: nat)
    requires c < CELL
    ensures BigEndian(CellBytes(c)) == c
  {
    Powers();
    NumberOfDigits(c, 4, 256);
  }

  lemma BytesReadBack(b: Bytes)
    requires |b| == 4
    ensures BigEndian(b) < CELL && CellBytes(BigEndian(b)) == b
  {
    Powers();
    DigitsOfNumber(ToNats(b), 256);
    var back := CellBytes(BigEndian(b));
    forall i | 0 <= i < 4 ensures back[i] == b[i] { assert ToNats(back)[i] == ToNats(b)[i]; }
  }

  /** Decoding undoes encoding. */
  lemma {:induction false} DecodeEncode(cells: seq<nat>)
    requires AreCells(cells)
    ensures Chunks(Encode(cells)) == cells
    ensures cells != [] ==> U32s(Encode(cells)) == Some(cells)
    decreases |cells|
  {
    if cells == [] {
      assert Encode(cells) == [];
    } else {
      CellReadsBack(cells[0]);
      DecodeEncode(cells[1..]);
      ChunksFront(CellBytes(cells[0]), Encode(cells[1..]));
      assert cells == [cells[0]] + cells[1..];
    }
  }

  lemma ChunksFront(cell: Bytes, rest: Bytes)
    requires |cell| == 4 && |rest| % 4 == 0
    ensures |cell + rest| % 4 == 0 && Chunks(cell + rest) == [BigEndian(cell)] + Chunks(rest)
  {
    SumParts(cell, rest);
  }

  /** Encoding undoes decoding: what is accepted loses nothing. */
  lemma {:induction false} EncodeDecode(raw: Bytes)
    requires |raw| % 4 == 0
    ensures AreCells(Chunks(raw)) && Encode(Chunks(raw)) == raw
    decreases |raw|
  {
    if raw != [] {
      BytesReadBack(raw[..4]);
      EncodeDecode(raw[4..]);
      var cells := Chunks(raw);
      assert cells[1..] == Chunks(raw[4..]);
      assert raw == raw[..4] + raw[4..];
    }
  }

  // ----- reg -----

  function EntryOf(cells: seq<nat>, ac: nat, sc: nat): Entry
    requires |cells| == ac + sc
  {
    Entry(Number(cells[..ac], CELL), Number(cells[ac..], CELL))
  }

  /** The complete entries of a cell list; trailing cells are ignored. */
  function Entries(cells: seq<nat>, ac: nat, sc: nat): seq<Entry>
    requires ac + sc > 0
    decreases |cells|
  {
    if |cells| < ac + sc then []
    else [EntryOf(cells[..ac + sc], ac, sc)] + Entries(cells[ac + sc..], ac, sc)
  }

  function FormatAll(es: seq<Entry>): (ss: seq<string>)
    ensures |ss| == |es|
  {
    seq(|es|, i requires 0 <= i < |es| => Format(es[i]))
  }

  /** collect_quick.py:277-280: the parent's count, or the default. */
  function Count(raw: Option<Bytes>, default: nat): nat {
    if raw.None? || raw.value == [] then default
    else
      match U32s(raw.value)
      case None => default
      case Some(vals) => vals[0]
  }

  /** The inner accumulation: addr = (addr << 32) | c. */
  method Accumulate(cells: seq<nat>) returns (v: nat)
    ensures v == Number(cells, CELL)
  {
    v := 0;
    var i := 0;
    while i < |cells|
      invariant i <= |cells| && v == Number(cells[..i], CELL)
    {
      assert cells[..i + 1][..i] == cells[..i];
      v := v * CELL + cells[i];
      i := i + 1;
    }
    assert cells[..i] == cells;
  }

  /** What is listed for a reg property under the parent's two count properties. */
  function Listing(raw: Bytes, addressCells: Option<Bytes>, sizeCells: Option<Bytes>)
    : Result<Option<seq<string>>, string>
  {
    var ac, sc := Count(addressCells, 2), Count(sizeCells, 1);
    if U32s(raw).None? then Success(None)
    else if ac + sc == 0 then Failure(ZERO_STEP)
    else Success(Some(FormatAll(Entries(U32s(raw).value, ac, sc))))
  }

  const ZERO_STEP: string := "range() arg 3 must not be zero"

  /** collect_quick.py:265-294.  Failure is the ValueError of range() with step zero. */
  method DtReg(raw: Bytes, addressCells: Option<Bytes>, sizeCells: Option<Bytes>)
    returns (r: Result<Option<seq<string>>, string>)
    ensures r == Listing(raw, addressCells, sizeCells)
  {
    var decoded := U32s(raw);
    if decoded.None? {
      return Success(None);
    }
    var cells := decoded.value;
    var ac, sc := Count(addressCells, 2), Count(sizeCells, 1);
    var width := ac + sc;
    if width == 0 {
      return Failure(ZERO_STEP);
    }
    var out := ReadEntries(cells, ac, sc);
    r := Success(Some(out));
  }

  /** The entries before position i have been printed to `out`. */
  ghost predicate Printed(cells: seq<nat>, ac: nat, sc: nat, out: seq<string>, i: nat)
    requires ac + sc > 0
  {
    i <= |cells| && FormatAll(Entries(cells, ac, sc)) == out + FormatAll(Entries(cells[i..], ac, sc))
  }

  lemma PrintedNone(cells: seq<nat>, ac: nat, sc: nat)
    requires ac + sc > 0
    ensures Printed(cells, ac, sc, [], 0)
  {
    assert cells[0..] == cells;
  }

  lemma PrintedAll(cells: seq<nat>, ac: nat, sc: nat, out: seq<string>, i: nat)
    requires ac + sc > 0 && Printed(cells, ac, sc, out, i) && i + ac + sc > |cells|
    ensures out == FormatAll(Entries(cells, ac, sc))
  {
    assert FormatAll(Entries(cells[i..], ac, sc)) == [];
  }

  lemma PrintedNext(cells: seq<nat>, ac: nat, sc: nat, out: seq<string>, i: nat, e: Entry)
    requires ac + sc > 0 && Printed(cells, ac, sc, out, i) && i + ac + sc <= |cells|
    requires e == Entry(Number(cells[i..i + ac], CELL), Number(cells[i + ac..i + ac + sc], CELL))
    ensures Printed(cells, ac, sc, out + [Format(e)], i + ac + sc)
  {
    NextEntry(cells, i, ac, sc);
    FormatCons(e, Entries(cells[i + ac + sc..], ac, sc));
  }

  lemma FormatCons(e: Entry, es: seq<Entry>)
    ensures FormatAll([e] + es) == [Format(e)] + FormatAll(es)
  {
  }

  /** collect_quick.py:287-292: the address and the size at position i. */
  method ReadEntry(cells: seq<nat>, ac: nat, sc: nat, i: nat) returns (e: Entry)
    requires i + ac + sc <= |cells|
    ensures e == Entry(Number(cells[i..i + ac], CELL), Number(cells[i + ac..i + ac + sc], CELL))
  {
    var addr := Accumulate(cells[i..i + ac]);
    var size := Accumulate(cells[i + ac..i + ac + sc]);
    e := Entry(addr, size);
  }

  /** The loop over whole entries. */
  method ReadEntries(cells: seq<nat>, ac: nat, sc: nat) returns (out: seq<string>)
    requires ac + sc > 0
    ensures out == FormatAll(Entries(cells, ac, sc))
  {
    out := [];
    var width, i := ac + sc, 0;
    PrintedNone(cells, ac, sc);
    while i + width <= |cells|
      invariant Printed(cells, ac, sc, out, i)
      decreases |cells| - i
    {
      var e := ReadEntry(cells, ac, sc, i);
      PrintedNext(cells, ac, sc, out, i, e);
      out := out + [Format(e)];
      i := i + width;
    }
    PrintedAll(cells, ac, sc, out, i);
  }

  lemma NextEntry(cells: seq<nat>, i: nat, ac: nat, sc: nat)
    requires ac + sc > 0 && i + ac + sc <= |cells|
    ensures Entries(cells[i..], ac, sc) ==
            [Entry(Number(cells[i..i + ac], CELL), Number(cells[i + ac..i + ac + sc], CELL))]
            + Entries(cells[i + ac + sc..], ac, sc)
  {
    var rest := cells[i..];
    assert rest[..ac + sc][..ac] == cells[i..i + ac] && rest[..ac + sc][ac..] == cells[i + ac..i + ac + sc];
    assert rest[ac + sc..] == cells[i + ac + sc..];
  }

  predicate Fits(e: Entry, ac: nat, sc: nat) {
    e.addr < Power(CELL, ac) && e.size < Power(CELL, sc)
  }

  function EntryCells(e: Entry, ac: nat, sc: nat): (cells: seq<nat>)
    ensures |cells| == ac + sc && AreCells(cells)
  {
    Digits(e.addr, ac, CELL) + Digits(e.size, sc, CELL)
  }

  /** A reg property as the specification lays it out. */
  function RegCells(es: seq<Entry>, ac: nat, sc: nat): (cells: seq<nat>)
    ensures AreCells(cells) && (es != [] && ac + sc > 0 ==> cells != [])
  {
    if es == [] then [] else EntryCells(es[0], ac, sc) + RegCells(es[1..], ac, sc)
  }

  lemma {:induction false} EntriesOfRegCells(es: seq<Entry>, ac: nat, sc: nat)
    requires ac + sc > 0 && forall i :: 0 <= i < |es| ==> Fits(es[i], ac, sc)
    ensures Entries(RegCells(es, ac, sc), ac, sc) == es
    decreases |es|
  {
    if es != [] {
      var e, cells := es[0], RegCells(es, ac, sc);
      EntriesOfRegCells(es[1..], ac, sc);
      NumberOfDigits(e.addr, ac, CELL);
      NumberOfDigits(e.size, sc, CELL);
      var own := EntryCells(e, ac, sc);
      assert cells[..ac + sc] == own && cells[ac + sc..] == RegCells(es[1..], ac, sc);
      assert own[..ac] == Digits(e.addr, ac, CELL) && own[ac..] == Digits(e.size, sc, CELL);
    }
  }

  /** Every list of entries that fits the parent's cell counts survives being laid out as
      bytes, decoded, printed and parsed by the other program. */
  lemma RegRoundTrip(es: seq<Entry>, ac: nat, sc: nat)
    requires es != [] && ac + sc > 0 && forall i :: 0 <= i < |es| ==> Fits(es[i], ac, sc)
    ensures var cells := U32s(Encode(RegCells(es, ac, sc)));
            && cells.Some? && Entries(cells.value, ac, sc) == es
            && forall i :: 0 <= i < |es| ==> ParseReg(FormatAll(Entries(cells.value, ac, sc))[i]) == Some(es[i])
  {
    DecodeEncode(RegCells(es, ac, sc));
    EntriesOfRegCells(es, ac, sc);
    forall i | 0 <= i < |es| ensures ParseReg(Format(es[i])) == Some(es[i]) { ParseFormat(es[i]); }
  }

  /** A count property that says n; what follows its first cell is not looked at. */
  ghost predicate Says(raw: Option<Bytes>, n: nat) {
    raw.Some? && exists more :: AreCells([n] + more) && raw.value == Encode([n] + more)
  }

  /** A count property that is absent, empty or no list of cells. */
  predicate SaysNothing(raw: Option<Bytes>) {
    raw.None? || raw.value == [] || |raw.value| % 4 != 0
  }

  lemma CountOf(raw: Option<Bytes>, n: nat, default: nat)
    ensures Says(raw, n) ==> Count(raw, default) == n
    ensures SaysNothing(raw) ==> Count(raw, default) == default
  {
    if Says(raw, n) {
      var more :| AreCells([n] + more) && raw.value == Encode([n] + more);
      DecodeEncode([n] + more);
    }
  }

  /** From end to end: any entries, laid out under the counts of the parent -- two address cells
      and one size cell where it has none -- are listed in order, in a form the other program
      reads back. */
  lemma ListedAndReadBack(es: seq<Entry>, ac: nat, sc: nat, addressCells: Option<Bytes>, sizeCells: Option<Bytes>)
    requires es != [] && ac + sc > 0 && forall i :: 0 <= i < |es| ==> Fits(es[i], ac, sc)
    requires Says(addressCells, ac) || (ac == 2 && SaysNothing(addressCells))
    requires Says(sizeCells, sc) || (sc == 1 && SaysNothing(sizeCells))
    ensures var r := Listing(Encode(RegCells(es, ac, sc)), addressCells, sizeCells);
            && r.Success? && r.value.Some? && |r.value.value| == |es|
            && forall i :: 0 <= i < |es| ==> ParseReg(r.value.value[i]) == Some(es[i])
  {
    CountOf(addressCells, ac, 2);
    CountOf(sizeCells, sc, 1);
    RegRoundTrip(es, ac, sc);
    ListingOf(Encode(RegCells(es, ac, sc)), addressCells, sizeCells, ac, sc, es);
    forall i | 0 <= i < |es| ensures ParseReg(FormatAll(es)[i]) == Some(es[i]) { ParseFormat(es[i]); }
  }

  lemma ListingOf(raw: Bytes, addressCells: Option<Bytes>, sizeCells: Option<Bytes>, ac: nat, sc: nat, es: seq<Entry>)
    requires Count(addressCells, 2) == ac && Count(sizeCells, 1) == sc && ac + sc > 0
    requires U32s(raw).Some? && Entries(U32s(raw).value, ac, sc) == es
    ensures Listing(raw, addressCells, sizeCells) == Success(Some(FormatAll(es)))
  {
  }

  /** Counts of zero and zero raise, for any property that is a list of cells. */
  lemma ZeroCountsRaise(raw: Bytes, addressCells: Option<Bytes>, sizeCells: Option<Bytes>)
    requires Says(addressCells, 0) && Says(sizeCells, 0)
    ensures Listing(raw, addressCells, sizeCells).Failure? <==> raw != [] && |raw| % 4 == 0
  {
    CountOf(addressCells, 0, 2);
    CountOf(sizeCells, 0, 1);
  }

  // ----- The overlay generator's printer -----

  /** ane_soc_from_collect.py:322-323: the four cells it prints for an address and a size. */
  function PrintedCells(e: Entry): seq<nat> {
    [e.addr / CELL, e.addr % CELL, 0, e.size]
  }

  /** The printed cells are cells exactly for addresses below 2^64 and sizes below 2^32. */
  lemma PrintedAreCellsIff(e: Entry)
    ensures AreCells(PrintedCells(e)) <==> e.addr < CELL * CELL && e.size < CELL
  {
    var cells := PrintedCells(e);
    assert AreCells(cells) ==> cells[0] < CELL && cells[3] < CELL;
    assert e.addr / CELL < CELL <==> e.addr < CELL * CELL;
  }

  /** ... and are then read back as the entry, under two address and two size cells. */
  lemma PrintedReadsBack(e: Entry)
    requires e.addr < CELL * CELL && e.size < CELL
    ensures U32s(Encode(PrintedCells(e))) == Some(PrintedCells(e))
    ensures Entries(PrintedCells(e), 2, 2) == [e]
  {
    PrintedAreCellsIff(e);
    DecodeEncode(PrintedCells(e));
    var cells := PrintedCells(e);
    assert cells[..4] == cells && cells[4..] == [];
    assert cells[..2][..1] == [e.addr / CELL] && cells[2..][..1] == [0];
    assert [e.addr / CELL][..0] == [] && [0][..0] == [];
    assert Number([e.addr / CELL], CELL) == e.addr / CELL && Number([0], CELL) == 0;
    assert EntryOf(cells, 2, 2) == e;
  }

  /** ane_soc_from_collect.py:271-274 on a 36-bit Linux base and 32-bit macOS addresses. */
  function Translate(linuxBase: nat, addr: nat): nat {
    linuxBase / CELL * CELL + addr % CELL
  }

  /** With the low halves matched, translation puts the block at its Linux base, keeps every
      address's low half and keeps distances within the 4 GiB window. */
  lemma TranslationKeepsOffsets(linuxBase: nat, pmgrLow: nat, a: nat, b: nat)
    requires linuxBase % CELL == pmgrLow && a < CELL && b < CELL
    ensures Translate(linuxBase, pmgrLow) == linuxBase
    ensures Translate(linuxBase, a) % CELL == a && Translate(linuxBase, a) / CELL == linuxBase / CELL
    ensures Translate(linuxBase, a) - Translate(linuxBase, b) == a - b
  {
  }

  // ----- iommus -----

  /** Node paths by phandle, and each DART's #iommu-cells. */
  datatype Tree = Tree(phandles: map<nat, string>, iommuCells: map<string, seq<nat>>)

  function TargetOf(t: Tree, cell: nat): string {
    if cell in t.phandles then t.phandles[cell] else "phandle:" + Decimal(cell)
  }

  /** How many specifier cells follow a reference to this target. */
  function Specifiers(t: Tree, target: string): nat {
    if target in t.iommuCells && t.iommuCells[target] != [] then t.iommuCells[target][0] else 0
  }

  /** What a phandle cell resolves to and how many specifiers follow it. */
  datatype Target = Target(name: string, specifiers: nat)

  function Reader(t: Tree): nat -> Target {
    (cell: nat) => Target(TargetOf(t, cell), Specifiers(t, TargetOf(t, cell)))
  }

  /** collect_quick.py:484-506, for one node's list from position i on. */
  function Resolve(read: nat -> Target, cells: seq<nat>, i: nat, room: nat): seq<string>
    decreases room
  {
    if i >= |cells| || room == 0 then []
    else [read(cells[i]).name] + Resolve(read, cells, i + 1 + read(cells[i]).specifiers, room - 1)
  }

  /** The loop; `read` looks a phandle cell up, and the source keeps at most `room` = 8 targets. */
  method ResolveWith(read: nat -> Target, cells: seq<nat>, room: nat) returns (resolved: seq<string>)
    ensures resolved == Resolve(read, cells, 0, room)
  {
    resolved := [];
    var i: nat := 0;
    while i < |cells| && |resolved| < room
      invariant |resolved| <= room
      invariant Resolve(read, cells, 0, room) == resolved + Resolve(read, cells, i, room - |resolved|)
      decreases room - |resolved|
    {
      var t := read(cells[i]);
      Assoc(resolved, [t.name], Resolve(read, cells, i + 1 + t.specifiers, room - |resolved| - 1));
      resolved, i := resolved + [t.name], i + 1 + t.specifiers;
    }
  }

  method ResolveIommus(t: Tree, iommus: seq<nat>) returns (resolved: seq<string>)
    ensures resolved == Resolve(Reader(t), iommus, 0, 8)
  {
    resolved := ResolveWith(Reader(t), iommus, 8);
  }

  /** One reference: a phandle and its specifier cells. */
  datatype Ref = Ref(phandle: nat, specifiers: seq<nat>)

  predicate WellFormed(read: nat -> Target, r: Ref) {
    |r.specifiers| == read(r.phandle).specifiers
  }

  function Flatten(refs: seq<Ref>): seq<nat> {
    if refs == [] then [] else [refs[0].phandle] + refs[0].specifiers + Flatten(refs[1..])
  }

  function Targets(read: nat -> Target, refs: seq<Ref>): (ts: seq<string>)
    ensures |ts| == |refs|
  {
    if refs == [] then [] else [read(refs[0].phandle).name] + Targets(read, refs[1..])
  }

  function FirstOf(ts: seq<string>, room: nat): seq<string> {
    if |ts| <= room then ts else ts[..room]
  }

  lemma FirstOfCons(x: string, ts: seq<string>, room: nat)
    requires room > 0
    ensures FirstOf([x] + ts, room) == [x] + FirstOf(ts, room - 1)
  {
  }

  /** A well-formed list of phandles and specifiers resolves to its first `room` targets,
      whatever stands before it. */
  lemma {:induction false} ResolveFlattened(read: nat -> Target, before: seq<nat>, refs: seq<Ref>, room: nat)
    requires forall i :: 0 <= i < |refs| ==> WellFormed(read, refs[i])
    ensures Resolve(read, before + Flatten(refs), |before|, room) == FirstOf(Targets(read, refs), room)
    decreases |refs|
  {
    if refs != [] && room > 0 {
      var r, done := refs[0], before + [refs[0].phandle] + refs[0].specifiers;
      Regrouped(before, r, Flatten(refs[1..]));
      ResolveFlattened(read, done, refs[1..], room - 1);
      FirstOfCons(read(r.phandle).name, Targets(read, refs[1..]), room);
    }
  }

  lemma Regrouped(before: seq<nat>, r: Ref, more: seq<nat>)
    ensures before + ([r.phandle] + r.specifiers + more) == before + [r.phandle] + r.specifiers + more
    ensures (before + ([r.phandle] + r.specifiers + more))[|before|] == r.phandle
  {
  }

  /** One reference of a tree: a known node with as many specifiers as that node, when it is a
      DART, asks for; or an unknown phandle, on its own. */
  predicate RefOf(t: Tree, r: Ref) {
    if r.phandle in t.phandles then
      var node := t.phandles[r.phandle];
      |r.specifiers| == if node in t.iommuCells && t.iommuCells[node] != [] then t.iommuCells[node][0] else 0
    else
      r.specifiers == [] && "phandle:" + Decimal(r.phandle) !in t.iommuCells
  }

  /** Where it leads: to the node's path, or to the phandle as text. */
  function Destination(t: Tree, r: Ref): string {
    if r.phandle in t.phandles then t.phandles[r.phandle] else "phandle:" + Decimal(r.phandle)
  }

  /** A node's list of references resolves to where the first eight of them lead. */
  lemma ResolvedOnTree(t: Tree, refs: seq<Ref>)
    requires forall i :: 0 <= i < |refs| ==> RefOf(t, refs[i])
    ensures var r := Resolve(Reader(t), Flatten(refs), 0, 8);
            && |r| == (if |refs| < 8 then |refs| else 8)
            && forall i :: 0 <= i < |r| ==> r[i] == Destination(t, refs[i])
  {
    forall i | 0 <= i < |refs|
      ensures WellFormed(Reader(t), refs[i]) && Reader(t)(refs[i].phandle).name == Destination(t, refs[i])
    {
      OneRef(t, refs[i]);
    }
    ResolvedInOrder(Reader(t), refs, 8);
  }

  lemma OneRef(t: Tree, r: Ref)
    requires RefOf(t, r)
    ensures WellFormed(Reader(t), r) && Reader(t)(r.phandle).name == Destination(t, r)
  {
  }

  lemma ResolvedInOrder(read: nat -> Target, refs: seq<Ref>, room: nat)
    requires forall i :: 0 <= i < |refs| ==> WellFormed(read, refs[i])
    ensures var r := Resolve(read, Flatten(refs), 0, room);
            && |r| == (if |refs| < room then |refs| else room)
            && forall i :: 0 <= i < |r| ==> r[i] == read(refs[i].phandle).name
  {
    ResolveFlattened(read, [], refs, room);
    assert [] + Flatten(refs) == Flatten(refs);
    forall i | 0 <= i < |refs| ensures Targets(read, refs)[i] == read(refs[i].phandle).name { TargetAt(read, refs, i); }
  }

  lemma {:induction false} TargetAt(read: nat -> Target, refs: seq<Ref>, i: nat)
    requires i < |refs|
    ensures Targets(read, refs)[i] == read(refs[i].phandle).name
    decreases i
  {
    if i > 0 { TargetAt(read, refs[1..], i - 1); }
  }

  // ----- macOS reg data -----

  /** int.from_bytes(b, "little"). */
  function LittleEndian(b: Bytes): nat {
    if b == [] then 0 else b[0] as nat + 256 * LittleEndian(b[1..])
  }

  function Backwards(b: Bytes): (r: Bytes)
    ensures |r| == |b| && forall i :: 0 <= i < |b| ==> r[i] == b[|b| - 1 - i]
  {
    seq(|b|, i requires 0 <= i < |b| => b[|b| - 1 - i])
  }

  /** The other byte order is the same bytes backwards. */
  lemma {:induction false} LittleIsBigBackwards(b: Bytes)
    ensures LittleEndian(b) == BigEndian(Backwards(b))
    decreases |b|
  {
    if b != [] {
      var ds := ToNats(Backwards(b));
      LittleIsBigBackwards(b[1..]);
      assert ds[..|ds| - 1] == ToNats(Backwards(b[1..]));
    }
  }

  function LittleBytes(v: nat, k: nat): (b: Bytes)
    ensures |b| == k
  {
    if k == 0 then [] else [(v % 256) as byte] + LittleBytes(v / 256, k - 1)
  }

  lemma {:induction false} LittleReadsBack(v: nat, k: nat)
    requires v < Power(256, k)
    ensures LittleEndian(LittleBytes(v, k)) == v
    decreases k
  {
    if k > 0 {
      DigitsBelow(v / 256, Power(256, k - 1), v % 256, 256);
      LittleReadsBack(v / 256, k - 1);
      assert LittleBytes(v, k)[1..] == LittleBytes(v / 256, k - 1);
    }
  }

  function Pairs(b: Bytes): seq<Entry>
    decreases |b|
  {
    if |b| < 16 then []
    else
      var e := Entry(LittleEndian(b[..8]), LittleEndian(b[8..16]));
      (if e.addr != 0 then [e] else []) + Pairs(b[16..])
  }

  lemma PairAt(b: Bytes, i: nat)
    requires i + 16 <= |b|
    ensures var e := Entry(LittleEndian(b[i..i + 8]), LittleEndian(b[i + 8..i + 16]));
            Pairs(b[i..]) == (if e.addr != 0 then [e] else []) + Pairs(b[i + 16..])
  {
    var rest := b[i..];
    assert rest[..8] == b[i..i + 8] && rest[8..16] == b[i + 8..i + 16] && rest[16..] == b[i + 16..];
  }

  /** ane_soc_from_collect.py:49-58, after the hex text has become bytes. */
  method U64LePairs(b: Bytes) returns (out: seq<Entry>)
    ensures out == Pairs(b)
  {
    out := [];
    var i := 0;
    assert b[0..] == b;
    while i + 16 <= |b|
      invariant i <= |b| && Pairs(b) == out + Pairs(b[i..])
      decreases |b| - i
    {
      var addr := LittleEndian(b[i..i + 8]);
      var size := LittleEndian(b[i + 8..i + 16]);
      PairAt(b, i);
      Assoc(out, [Entry(addr, size)], Pairs(b[i + 16..]));
      if addr != 0 {
        out := out + [Entry(addr, size)];
      }
      i := i + 16;
    }
  }

  function PairBytes(es: seq<Entry>): Bytes {
    if es == [] then [] else LittleBytes(es[0].addr, 8) + LittleBytes(es[0].size, 8) + PairBytes(es[1..])
  }

  function Addressed(es: seq<Entry>): seq<Entry> {
    if es == [] then [] else (if es[0].addr != 0 then [es[0]] else []) + Addressed(es[1..])
  }

  /** The ranges come back, all but those at address zero. */
  lemma {:induction false} PairsReadBack(es: seq<Entry>)
    requires forall i :: 0 <= i < |es| ==> es[i].addr < Power(256, 8) && es[i].size < Power(256, 8)
    ensures Pairs(PairBytes(es)) == Addressed(es)
    decreases |es|
  {
    if es != [] {
      var b := PairBytes(es);
      LittleReadsBack(es[0].addr, 8);
      LittleReadsBack(es[0].size, 8);
      assert b[..8] == LittleBytes(es[0].addr, 8) && b[8..16] == LittleBytes(es[0].size, 8);
      assert b[16..] == PairBytes(es[1..]);
      PairsReadBack(es[1..]);
    }
  }
}
