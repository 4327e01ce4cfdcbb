/**
 Merging of boot and application UF2 images, byte for byte.

 `Merged` says what a merge of given blocks is; `Image` builds it in place, as the tool does, in a
 dictionary of blocks by address that is filled, padded and renumbered.
 */
module Uf2 {
  import opened Outcomes
  import Collections

  type byte = n: int | 0 <= n < 256

  const PAGE := 256
  const SECTOR := 4096
  const WORD := 0x1_0000_0000

  type Block = b: seq<byte> | |b| == 512 witness seq(512, _ => 0)

  datatype Uf2Error = Malformed | Overlapping | NoBlocks | BadRange | WrongStart | PastEnd

  // ---------------------------------------------------------------- fields of a block

  /** The little-endian 32-bit word at an offset. */
  function U32(b: seq<byte>, at: nat): (v: nat)
    requires at + 4 <= |b|
    ensures v < WORD
  {
    var b0: int, b1: int, b2: int, b3: int := b[at], b[at + 1], b[at + 2], b[at + 3];
    b0 + 256 * b1 + 65536 * b2 + 16777216 * b3
  }

  function Put(b: Block, at: nat, v: nat): (r: Block)
    requires at + 4 <= 512 && v < WORD
    ensures U32(r, at) == v
    ensures forall i :: 0 <= i < 512 && !(at <= i < at + 4) ==> r[i] == b[i]
  {
    var r := b[..at] + LittleEndian(v) + b[at + 4..];
    assert r[at] == LittleEndian(v)[0] && r[at + 1] == LittleEndian(v)[1];
    assert r[at + 2] == LittleEndian(v)[2] && r[at + 3] == LittleEndian(v)[3];
    r
  }

  function LittleEndian(v: nat): (s: seq<byte>)
    requires v < WORD
    ensures |s| == 4 && U32(s, 0) == v
  {
    var v1 := v / 256;
    var v2 := v1 / 256;
    assert v == v % 256 + 256 * v1 && v1 == v1 % 256 + 256 * v2;
    [v % 256, v1 % 256, v2 % 256, v2 / 256]
  }

  function Address(b: Block): nat { U32(b, 12) }

  predicate ValidBlock(b: Block) {
    && U32(b, 0) == 0x0A324655 && U32(b, 4) == 0x9E5D5157 && U32(b, 508) == 0x0AB16F30
    && Address(b) % PAGE == 0
    && U32(b, 16) == PAGE
  }

  /** Tagged with the RP2 ignore extension: never written to flash. */
  predicate Ignored(b: Block) {
    U32(b, 8) / 0x8000 % 2 == 1 && U32(b, 32 + PAGE) == 0x9957E304
  }

  predicate Written(b: Block) { !Ignored(b) }

  /** Equal apart from the block number and count. */
  predicate Same(a: Block, b: Block) {
    a[..20] == b[..20] && a[28..] == b[28..]
  }

  function Renumber(b: Block, index: nat, count: nat): Block
    requires index < WORD && count < WORD
  {
    Put(Put(b, 20, index), 24, count)
  }

  /** A page of zeros with the header of a template. */
  function Dummy(template: Block, address: nat): Block
    requires address < WORD
  {
    var b := Put(Put(template, 12, address), 16, PAGE);
    b[..32] + seq(476, _ => 0) + b[508..]
  }

  // ---------------------------------------------------------------- the same fields in bytes

  /** A number below its base is told from what it is added to. */
  lemma LowByte(q: int, r: int, s: int, t: int)
    requires 0 <= r < 0x100 && 0 <= t < 0x100
    ensures r + 0x100 * q == t + 0x100 * s <==> q == s && r == t
  {
  }

  /** A word has this value exactly for these four bytes, the least significant one first. */
  lemma WordBytes(b: Block, at: nat, b0: byte, b1: byte, b2: byte, b3: byte)
    requires at + 4 <= 512
    ensures U32(b, at) == b0 + 0x100 * b1 + 0x1_0000 * b2 + 0x100_0000 * b3 <==> b[at..at + 4] == [b0, b1, b2, b3]
  {
    var c0: int, c1: int, c2: int, c3: int := b[at], b[at + 1], b[at + 2], b[at + 3];
    var d0: int, d1: int, d2: int, d3: int := b0, b1, b2, b3;
    assert b[at..at + 4] == [b[at], b[at + 1], b[at + 2], b[at + 3]];
    LowByte(c1 + 0x100 * (c2 + 0x100 * c3), c0, d1 + 0x100 * (d2 + 0x100 * d3), d0);
    LowByte(c2 + 0x100 * c3, c1, d2 + 0x100 * d3, d1);
    LowByte(c3, c2, d3, d2);
  }

  /** A block is accepted exactly with these bytes: three magic words, an aligned address and one page. */
  lemma ValidBytes(b: Block)
    ensures ValidBlock(b) <==>
              && b[..8] == [0x55, 0x46, 0x32, 0x0A, 0x57, 0x51, 0x5D, 0x9E]
              && b[508..] == [0x30, 0x6F, 0xB1, 0x0A]
              && b[12] == 0 && b[16..20] == [0, 1, 0, 0]
  {
    WordBytes(b, 0, 0x55, 0x46, 0x32, 0x0A);
    WordBytes(b, 4, 0x57, 0x51, 0x5D, 0x9E);
    WordBytes(b, 508, 0x30, 0x6F, 0xB1, 0x0A);
    WordBytes(b, 16, 0, 1, 0, 0);
    assert b[..8] == b[0..4] + b[4..8] && b[508..] == b[508..512];
    assert Address(b) % PAGE == b[12];
  }

  /** A number as four bytes, the least significant one first. */
  ghost function WordBytesOf(v: nat): seq<byte>
    requires v < WORD
  {
    [v % 0x100, v / 0x100 % 0x100, v / 0x100 / 0x100 % 0x100, v / 0x100 / 0x100 / 0x100]
  }

  /** The address is read from bytes 12 to 15; number and count are written to bytes 20 to 27. */
  lemma FieldBytes(b: Block, index: nat, count: nat)
    requires index < WORD && count < WORD
    ensures b[12..16] == WordBytesOf(Address(b))
    ensures var r := Renumber(b, index, count);
            && r[20..24] == WordBytesOf(index) && r[24..28] == WordBytesOf(count)
            && r[..20] == b[..20] && r[28..] == b[28..]
  {
    WordOf(b, 12, Address(b));
    var r := Renumber(b, index, count);
    WordOf(r, 20, index);
    WordOf(r, 24, count);
  }

  lemma WordOf(b: Block, at: nat, v: nat)
    requires at + 4 <= 512 && v < WORD && U32(b, at) == v
    ensures b[at..at + 4] == WordBytesOf(v)
  {
    var v1 := v / 0x100;
    var v2 := v1 / 0x100;
    var v3 := v2 / 0x100;
    assert v == v % 0x100 + 0x100 * v1 && v1 == v1 % 0x100 + 0x100 * v2 && v2 == v2 % 0x100 + 0x100 * v3;
    Parts(v % 0x100, v1 % 0x100, v2 % 0x100, v3, v, v1, v2);
    hide U32;
    WordBytes(b, at, v % 0x100, v1 % 0x100, v2 % 0x100, v3);
  }

  lemma Parts(r0: int, r1: int, r2: int, v3: int, v: int, v1: int, v2: int)
    requires v == r0 + 0x100 * v1 && v1 == r1 + 0x100 * v2 && v2 == r2 + 0x100 * v3
    ensures v == r0 + 0x100 * r1 + 0x1_0000 * r2 + 0x100_0000 * v3
  {
  }

  /** A block is ignored exactly with the extension flag in byte 9 and the tag after its page. */
  lemma IgnoredBytes(b: Block)
    ensures Ignored(b) <==> b[9] >= 0x80 && b[288..292] == [0x04, 0xE3, 0x57, 0x99]
  {
    WordBytes(b, 288, 0x04, 0xE3, 0x57, 0x99);
    var b0: int, b1: int, b2: int, b3: int := b[8], b[9], b[10], b[11];
    var high, low := b1 / 0x80, b1 % 0x80;
    FlagIs(U32(b, 8), high + 2 * (b2 + 0x100 * b3), b0 + 0x100 * low);
    EvenIs(high, b2 + 0x100 * b3);
    hide U32;
  }

  lemma FlagIs(n: int, q: int, r: int)
    requires n == r + 0x8000 * q && 0 <= r < 0x8000
    ensures n / 0x8000 == q
  {
  }

  lemma EvenIs(a: int, b: int)
    requires a == 0 || a == 1
    ensures (a + 2 * b) % 2 == a
  {
  }

  lemma RenumberKeeps(b: Block, index: nat, count: nat)
    requires index < WORD && count < WORD
    ensures var r := Renumber(b, index, count);
            && Same(r, b) && U32(r, 20) == index && U32(r, 24) == count
            && Address(r) == Address(b) && (ValidBlock(r) <==> ValidBlock(b)) && (Ignored(r) <==> Ignored(b))
  {
    var r := Renumber(b, index, count);
    SameMeans(r, b);
  }

  lemma SameMeans(a: Block, b: Block)
    requires Same(a, b)
    ensures Address(a) == Address(b) && (ValidBlock(a) <==> ValidBlock(b)) && (Ignored(a) <==> Ignored(b))
    ensures a[32..32 + PAGE] == b[32..32 + PAGE]
  {
    forall i | 0 <= i < 512 && !(20 <= i < 28) ensures a[i] == b[i] {
      if i < 20 {
        assert a[i] == a[..20][i] && b[i] == b[..20][i];
      } else {
        assert a[i] == a[28..][i - 28] && b[i] == b[28..][i - 28];
      }
    }
  }

  lemma DummyIs(template: Block, address: nat)
    requires address < WORD && address % PAGE == 0 && ValidBlock(template)
    ensures var d := Dummy(template, address);
            && ValidBlock(d) && Address(d) == address && Written(d)
            && (forall i :: 32 <= i < 508 ==> d[i] == 0)
            && d[..12] == template[..12] && d[20..32] == template[20..32]
  {
    var c := Put(template, 12, address);
    var b := Put(c, 16, PAGE);
    var d := Dummy(template, address);
    assert forall i :: 0 <= i < 512 && !(32 <= i < 508) ==> d[i] == b[i];
  }

  // ---------------------------------------------------------------- files

  function Split(data: seq<byte>): (blocks: seq<Block>)
    requires |data| % 512 == 0
  {
    if data == [] then [] else [data[..512]] + Split(data[512..])
  }

  function Join(blocks: seq<Block>): (data: seq<byte>)
    ensures |data| == 512 * |blocks|
  {
    if blocks == [] then [] else blocks[0] + Join(blocks[1..])
  }

  function Uf2Blocks(data: seq<byte>): Result<seq<Block>, Uf2Error> {
    if |data| % 512 != 0 then Err(Malformed)
    else
      var blocks := Split(data);
      if forall i :: 0 <= i < |blocks| ==> ValidBlock(blocks[i]) then Ok(blocks) else Err(Malformed)
  }

  lemma {:induction false} SplitJoin(blocks: seq<Block>)
    ensures Split(Join(blocks)) == blocks
  {
    if blocks != [] {
      SplitJoin(blocks[1..]);
      assert Join(blocks)[..512] == blocks[0] && Join(blocks)[512..] == Join(blocks[1..]);
    }
  }

  lemma {:induction false} JoinSplit(data: seq<byte>)
    requires |data| % 512 == 0
    ensures Join(Split(data)) == data
  {
    if data != [] {
      JoinSplit(data[512..]);
      assert Split(data)[1..] == Split(data[512..]);
    }
  }

  // ---------------------------------------------------------------- what a merge is

  /** The first block with an address. */
  function FirstAt(blocks: seq<Block>, address: nat): (r: Option<Block>)
    ensures r.Some? <==> exists i :: 0 <= i < |blocks| && Address(blocks[i]) == address
    ensures r.Some? ==> r.value in blocks && Address(r.value) == address
  {
    if blocks == [] then None
    else if Address(blocks[0]) == address then Some(blocks[0])
    else
      assert forall i :: 0 < i < |blocks| ==> blocks[i] == blocks[1..][i - 1];
      FirstAt(blocks[1..], address)
  }

  /** The first written block of a sector: the template of its filler pages. */
  function Template(blocks: seq<Block>, sector: nat): (r: Option<Block>)
    ensures r.Some? <==> exists i :: 0 <= i < |blocks| && Written(blocks[i]) && Address(blocks[i]) / SECTOR == sector
    ensures r.Some? ==> r.value in blocks && Written(r.value) && Address(r.value) / SECTOR == sector
  {
    if blocks == [] then None
    else if Written(blocks[0]) && Address(blocks[0]) / SECTOR == sector then Some(blocks[0])
    else
      assert forall i :: 0 < i < |blocks| ==> blocks[i] == blocks[1..][i - 1];
      Template(blocks[1..], sector)
  }

  /** Some written page lies above this address. */
  ghost predicate BelowLast(blocks: seq<Block>, address: nat) {
    exists i :: 0 <= i < |blocks| && Written(blocks[i]) && address < Address(blocks[i])
  }

  /** A missing page of a touched sector, below the last written page. */
  ghost predicate Missing(blocks: seq<Block>, address: nat) {
    && address % PAGE == 0 && Template(blocks, address / SECTOR).Some?
    && BelowLast(blocks, address) && FirstAt(blocks, address).None?
  }

  ghost predicate Occupied(blocks: seq<Block>, address: nat) {
    FirstAt(blocks, address).Some? || Missing(blocks, address)
  }

  lemma MissingFits(blocks: seq<Block>, address: nat)
    requires Missing(blocks, address)
    ensures address < WORD
  {
  }

  /** The block at an occupied address, before renumbering. */
  ghost function Base(blocks: seq<Block>, address: nat): Block
    requires Occupied(blocks, address)
  {
    if FirstAt(blocks, address).Some? then FirstAt(blocks, address).value
    else
      MissingFits(blocks, address);
      Dummy(Template(blocks, address / SECTOR).value, address)
  }

  /** out is the merge of the blocks: one block an occupied address, sorted and numbered. */
  ghost predicate Merged(blocks: seq<Block>, out: seq<Block>) {
    && |out| < WORD
    && (forall i, j :: 0 <= i < j < |out| ==> Address(out[i]) < Address(out[j]))
    && (forall a: nat :: Occupied(blocks, a) ==> exists i :: 0 <= i < |out| && Address(out[i]) == a)
    && (forall i :: 0 <= i < |out| ==>
          Occupied(blocks, Address(out[i])) && out[i] == Renumber(Base(blocks, Address(out[i])), i, |out|))
  }

  /** Two blocks for one address that differ in more than their number. */
  ghost predicate Conflict(blocks: seq<Block>) {
    exists i, j :: 0 <= i < j < |blocks| && Address(blocks[i]) == Address(blocks[j]) && !Same(blocks[i], blocks[j])
  }

  ghost predicate AnyWritten(blocks: seq<Block>) {
    exists i :: 0 <= i < |blocks| && Written(blocks[i])
  }

  ghost predicate AllValid(blocks: seq<Block>) {
    forall i :: 0 <= i < |blocks| ==> ValidBlock(blocks[i])
  }

  // ---------------------------------------------------------------- building the merge

  /** The blocks as a dictionary by address keeps them: the first of each address, in order. */
  ghost function Dict(blocks: seq<Block>): seq<Block> {
    if blocks == [] then []
    else
      var n := |blocks| - 1;
      Dict(blocks[..n]) + if FirstAt(blocks[..n], Address(blocks[n])).None? then [blocks[n]] else []
  }

  lemma FirstAtNext(blocks: seq<Block>, b: Block, address: nat)
    ensures FirstAt(blocks + [b], address) ==
            if FirstAt(blocks, address).Some? then FirstAt(blocks, address)
            else if Address(b) == address then Some(b) else None
  {
    if blocks == [] {
      assert [] + [b] == [b];
    } else {
      assert (blocks + [b])[1..] == blocks[1..] + [b];
      FirstAtNext(blocks[1..], b, address);
    }
  }

  lemma TemplateNext(blocks: seq<Block>, b: Block, sector: nat)
    ensures Template(blocks + [b], sector) ==
            if Template(blocks, sector).Some? then Template(blocks, sector)
            else if Written(b) && Address(b) / SECTOR == sector then Some(b) else None
  {
    if blocks == [] {
      assert [] + [b] == [b];
    } else {
      assert (blocks + [b])[1..] == blocks[1..] + [b];
      TemplateNext(blocks[1..], b, sector);
    }
  }

  class Image {
    var blocks: map<nat, Block>
    var order: seq<nat>

    constructor ()
      ensures Keyed([]) && Ordered([])
    {
      blocks, order := map[], [];
    }

    /** The dictionary has the first block of every address. */
    ghost predicate Keyed(input: seq<Block>)
      reads this
    {
      && (forall a: nat :: a in blocks <==> FirstAt(input, a).Some?)
      && (forall a: nat :: a in blocks ==> FirstAt(input, a) == Some(blocks[a]))
    }

    /** ... in the order the blocks were added. */
    ghost predicate Ordered(input: seq<Block>)
      reads this
    {
      && |order| == |Dict(input)|
      && (forall k :: 0 <= k < |order| ==> order[k] in blocks && blocks[order[k]] == Dict(input)[k])
    }

    method Add(block: Block, ghost before: seq<Block>) returns (ok: bool)
      requires Keyed(before) && Ordered(before)
      modifies this
      ensures ok <==> var first := FirstAt(before, Address(block)); first.None? || Same(first.value, block)
      ensures ok ==> Keyed(before + [block]) && Ordered(before + [block])
    {
      hide Same, Address, FirstAt;
      var address := Address(block);
      forall a: nat {
        FirstAtNext(before, block, a);
      }
      assert (before + [block])[..|before|] == before;
      if address in blocks {
        assert Dict(before) + [] == Dict(before);
        return Same(blocks[address], block);
      }
      blocks := blocks[address := block];
      order := order + [address];
      assert Dict(before + [block]) == Dict(before) + [block];
      return true;
    }

    /** Adds every block; a second block for an address must be the same apart from its number. */
    method Collect(input: seq<Block>) returns (ok: bool)
      requires Keyed([]) && Ordered([])
      modifies this
      ensures ok <==> !Conflict(input)
      ensures ok ==> Keyed(input) && Ordered(input)
    {
      var i := 0;
      hide Keyed, Ordered, Conflict, Same, Address, FirstAt;
      assert input[..0] == [];
      NoConflict();
      while i < |input|
        invariant i <= |input| && Keyed(input[..i]) && Ordered(input[..i])
        invariant !Conflict(input[..i])
      {
        assert input[..i + 1] == input[..i] + [input[i]];
        ghost var before := input[..i];
        ok := Add(input[i], before);
        ConflictNext(before, input[i]);
        if !ok {
          ConflictPrefix(input, i + 1);
          return false;
        }
        i := i + 1;
      }
      assert input[..i] == input;
      return true;
    }

    /** The first written block of every touched sector, and the sectors. */
    method Touched(ghost input: seq<Block>) returns (touched: map<nat, Block>, sectors: seq<nat>)
      requires Ordered(input) && !Conflict(input)
      ensures forall s: nat :: s in touched <==> s in sectors
      ensures Records(touched, input)
    {
      touched, sectors := map[], [];
      ghost var d := Dict(input);
      var k := 0;
      assert d[..0] == [] && Records(touched, []);
      hide Written, Address, Records, Dict;
      while k < |order|
        invariant k <= |order|
        invariant forall s: nat :: s in touched <==> s in sectors
        invariant Records(touched, d[..k])
      {
        var block := blocks[order[k]];
        var sector := Address(block) / SECTOR;
        assert d[..k + 1] == d[..k] + [block];
        RecordsNext(touched, d[..k], block);
        if Written(block) && sector !in touched {
          touched, sectors := touched[sector := block], sectors + [sector];
        }
        k := k + 1;
      }
      assert d[..k] == d;
      RecordsDict(touched, input);
    }

    /** The highest written address, or -1. */
    method LastPage(ghost input: seq<Block>) returns (last: int)
      requires Ordered(input) && !Conflict(input)
      ensures last == -1 <==> !AnyWritten(input)
      ensures forall a: nat :: a < last <==> BelowLast(input, a)
    {
      last := -1;
      ghost var d := Dict(input);
      var k := 0;
      assert d[..0] == [];
      hide Written, Address, Dict, Conflict;
      while k < |order|
        invariant k <= |order|
        invariant -1 <= last && (last == -1 <==> !AnyWritten(d[..k]))
        invariant forall a: nat :: a < last <==> BelowLast(d[..k], a)
      {
        hide AnyWritten, BelowLast;
        var block := blocks[order[k]];
        assert d[..k + 1] == d[..k] + [block];
        LastNext(d[..k], block);
        if Written(block) && last < Address(block) {
          last := Address(block);
        }
        k := k + 1;
      }
      assert d[..k] == d;
      DictLast(input);
    }

    /** Fills the missing pages of every touched sector below the last written page. */
    method Pad(ghost input: seq<Block>) returns (ok: bool)
      requires Keyed(input) && Ordered(input) && !Conflict(input)
      modifies this
      ensures ok <==> AnyWritten(input)
      ensures ok ==> Complete(blocks, input)
    {
      hide Ordered, Conflict, Template, Filled, Records, BelowLast, AnyWritten, FirstAt, Complete;
      var touched, sectors := Touched(input);
      var last := LastPage(input);
      if last == -1 {
        return false;
      }
      FilledStart(blocks, input);
      hide Keyed;
      var j := 0;
      assert sectors[..0] == [];
      while j < |sectors|
        invariant j <= |sectors| && Filled(blocks, input, sectors[..j])
      {
        assert sectors[..j + 1] == sectors[..j] + [sectors[j]];
        RecordsAt(touched, input, sectors[j]);
        PadSector(input, touched[sectors[j]], sectors[j], last, sectors[..j]);
        j := j + 1;
      }
      assert sectors[..j] == sectors;
      FilledAll(blocks, input, touched, sectors);
      return true;
    }

    method PadSector(ghost input: seq<Block>, template: Block, sector: nat, last: int, ghost done: seq<nat>)
      requires Template(input, sector) == Some(template)
      requires forall a: nat :: a < last <==> BelowLast(input, a)
      requires Filled(blocks, input, done)
      modifies this
      ensures Filled(blocks, input, done + [sector])
    {
      hide Missing, FirstAt, Template, BelowLast, Occupied, PartFilled, Filled;
      var page := 0;
      PartStartsAndEnds(blocks, input, done, sector);
      while page < 16
        invariant page <= 16 && PartFilled(blocks, input, done, sector, page)
      {
        var address := sector * SECTOR + page * PAGE;
        PartNext(blocks, input, done, sector, page, template, last);
        if address < last && address !in blocks {
          blocks := blocks[address := Dummy(template, address)];
        }
        page := page + 1;
      }
      PartStartsAndEnds(blocks, input, done, sector);
    }
  }

  /** The given blocks and the filler pages of these sectors. */
  ghost predicate Filled(blocks: map<nat, Block>, input: seq<Block>, done: seq<nat>) {
    && (forall a: nat :: a in blocks <==> FirstAt(input, a).Some? || (Missing(input, a) && a / SECTOR in done))
    && (forall a: nat :: a in blocks ==> Occupied(input, a) && blocks[a] == Base(input, a))
  }

  ghost predicate PartFilled(blocks: map<nat, Block>, input: seq<Block>, done: seq<nat>, sector: nat, pages: nat) {
    && (forall a: nat :: a in blocks <==>
          FirstAt(input, a).Some? || (Missing(input, a) && (a / SECTOR in done || InPages(a, sector, pages))))
    && (forall a: nat :: a in blocks ==> Occupied(input, a) && blocks[a] == Base(input, a))
  }

  lemma PartStartsAndEnds(blocks: map<nat, Block>, input: seq<Block>, done: seq<nat>, sector: nat)
    ensures Filled(blocks, input, done) ==> PartFilled(blocks, input, done, sector, 0)
    ensures PartFilled(blocks, input, done, sector, 16) ==> Filled(blocks, input, done + [sector])
  {
    AllPages(sector);
    hide Base, Missing, FirstAt, Occupied, InPages;
  }

  /** One round of the page loop. */
  lemma PartNext(blocks: map<nat, Block>, input: seq<Block>, done: seq<nat>, sector: nat, page: nat,
                 template: Block, last: int)
    requires PartFilled(blocks, input, done, sector, page) && page < 16
    requires Template(input, sector) == Some(template)
    requires forall a: nat :: a < last <==> BelowLast(input, a)
    ensures var address := sector * SECTOR + page * PAGE;
            && (address < last && address !in blocks ==> address < WORD)
            && PartFilled(if address < last
                          && address !in blocks then blocks[address := Dummy(template, address)] else blocks,
                          input, done, sector, page + 1)
  {
    hide Base, Missing, FirstAt, Template, BelowLast, Occupied, InPages, Dummy, PartFilled;
    var address := sector * SECTOR + page * PAGE;
    NextPage(input, sector, page);
    FillerPage(input, template, sector, address, last);
    PartNextAt(blocks, input, done, sector, page, template, last, address);
  }

  lemma PartNextAt(blocks: map<nat, Block>, input: seq<Block>, done: seq<nat>, sector: nat, page: nat,
                   template: Block, last: int, address: nat)
    requires PartFilled(blocks, input, done, sector, page)
    requires forall a: nat :: Missing(input, a) ==>
               (InPages(a, sector, page + 1) <==> InPages(a, sector, page) || a == address)
    requires FirstAt(input, address).None? ==> (Missing(input, address) <==> address < last)
    requires Missing(input, address) ==>
               address < WORD && Occupied(input, address) && Base(input, address) == Dummy(template, address)
    ensures address < last && address !in blocks ==> address < WORD
    ensures PartFilled(if address < last
                       && address !in blocks then blocks[address := Dummy(template, address)] else blocks,
                       input, done, sector, page + 1)
  {
    hide Base, Missing, FirstAt, Occupied, InPages, Dummy;
  }

  /** Every occupied address has its block. */
  ghost predicate Complete(blocks: map<nat, Block>, input: seq<Block>) {
    forall a: nat :: (a in blocks <==> Occupied(input, a)) && (a in blocks ==> blocks[a] == Base(input, a))
  }

  lemma FilledStart(blocks: map<nat, Block>, input: seq<Block>)
    requires forall a: nat :: a in blocks <==> FirstAt(input, a).Some?
    requires forall a: nat :: a in blocks ==> FirstAt(input, a) == Some(blocks[a])
    ensures Filled(blocks, input, [])
  {
    hide FirstAt, Missing;
  }

  lemma RecordsAt(touched: map<nat, Block>, input: seq<Block>, s: nat)
    requires Records(touched, input) && s in touched
    ensures Template(input, s) == Some(touched[s])
  {
    hide Template;
    assert (if s in touched then Some(touched[s]) else None) == Template(input, s);
  }

  lemma FilledAll(blocks: map<nat, Block>, input: seq<Block>, touched: map<nat, Block>, sectors: seq<nat>)
    requires Filled(blocks, input, sectors) && Records(touched, input)
    requires forall s: nat :: s in touched <==> s in sectors
    ensures Complete(blocks, input)
  {
    hide Base, FirstAt, Template, BelowLast;
  }

  /** A dictionary from each touched sector to its template. */
  ghost predicate Records(touched: map<nat, Block>, blocks: seq<Block>) {
    forall s: nat :: (if s in touched then Some(touched[s]) else None) == Template(blocks, s)
  }

  lemma RecordsNext(touched: map<nat, Block>, blocks: seq<Block>, b: Block)
    requires Records(touched, blocks)
    ensures var s := Address(b) / SECTOR;
            Records(if Written(b) && s !in touched then touched[s := b] else touched, blocks + [b])
  {
    hide Written, Address, Template;
    forall s: nat {
      TemplateNext(blocks, b, s);
    }
  }

  lemma RecordsDict(touched: map<nat, Block>, input: seq<Block>)
    requires !Conflict(input) && Records(touched, Dict(input))
    ensures Records(touched, input)
  {
    forall s: nat {
      DictTemplate(input, s);
    }
  }

  /** One of the first `pages` pages of a sector. */
  ghost predicate InPages(a: nat, sector: nat, pages: nat) {
    a / SECTOR == sector && a < sector * SECTOR + pages * PAGE
  }

  lemma NextPage(input: seq<Block>, sector: nat, page: nat)
    requires page < 16
    ensures var address := sector * SECTOR + page * PAGE;
            && address / SECTOR == sector && address % PAGE == 0
            && forall a: nat :: Missing(input, a) ==>
              (InPages(a, sector, page + 1) <==> InPages(a, sector, page) || a == address)
  {
    hide FirstAt, Template, BelowLast;
  }

  lemma AllPages(sector: nat)
    ensures forall a: nat :: InPages(a, sector, 0) ==> false
    ensures forall a: nat :: InPages(a, sector, 16) <==> a / SECTOR == sector
  {
  }

  /** When the loop fills a page, and with what. */
  lemma FillerPage(input: seq<Block>, template: Block, sector: nat, address: nat, last: int)
    requires Template(input, sector) == Some(template) && address / SECTOR == sector && address % PAGE == 0
    requires address < last <==> BelowLast(input, address)
    ensures FirstAt(input, address).None? ==> (Missing(input, address) <==> address < last)
    ensures Missing(input, address) ==>
              address < WORD && Occupied(input, address) && Base(input, address) == Dummy(template, address)
  {
    if Missing(input, address) {
      MissingFits(input, address);
    }
  }

  lemma LastNext(d: seq<Block>, b: Block)
    ensures AnyWritten(d + [b]) <==> AnyWritten(d) || Written(b)
    ensures forall a: nat :: BelowLast(d + [b], a) <==> BelowLast(d, a) || (Written(b) && a < Address(b))
  {
    var e := d + [b];
    assert e[|d|] == b && forall i :: 0 <= i < |d| ==> e[i] == d[i];
  }

  /** The dictionary has the templates of the whole list. */
  lemma {:induction false} DictTemplate(input: seq<Block>, s: nat)
    requires !Conflict(input)
    ensures Template(Dict(input), s) == Template(input, s)
    decreases |input|
  {
    if input != [] {
      var n := |input| - 1;
      var before, b := input[..n], input[n];
      assert input == before + [b];
      if Conflict(before) {
        ConflictPrefix(input, n);
      }
      DictTemplate(before, s);
      RepeatedIsKnown(before, b);
      hide Conflict, Written, Template, FirstAt;
      TemplateNext(before, b, s);
      TemplateNext(Dict(before), b, s);
      assert Dict(before) + [] == Dict(before);
    }
  }

  /** ... and its written blocks and last page. */
  lemma {:induction false} DictLast(input: seq<Block>)
    requires !Conflict(input)
    ensures AnyWritten(Dict(input)) <==> AnyWritten(input)
    ensures forall a: nat :: BelowLast(Dict(input), a) <==> BelowLast(input, a)
    decreases |input|
  {
    if input != [] {
      var n := |input| - 1;
      var before, b := input[..n], input[n];
      assert input == before + [b];
      if Conflict(before) {
        ConflictPrefix(input, n);
      }
      DictLast(before);
      RepeatedIsKnown(before, b);
      hide Conflict, Written, AnyWritten, BelowLast, FirstAt;
      LastNext(before, b);
      LastNext(Dict(before), b);
      assert Dict(before) + [] == Dict(before);
    }
  }

  /** A repeated block adds no touched sector, written page or last page. */
  lemma RepeatedIsKnown(before: seq<Block>, b: Block)
    requires !Conflict(before + [b])
    ensures FirstAt(before, Address(b)).Some? && Written(b) ==>
              && Template(before, Address(b) / SECTOR).Some? && AnyWritten(before)
              && forall a: nat :: a < Address(b) ==> BelowLast(before, a)
  {
    var first := FirstAt(before, Address(b));
    if first.Some? && Written(b) {
      var k :| 0 <= k < |before| && before[k] == first.value;
      var all := before + [b];
      assert all[k] == before[k] && all[|before|] == b;
      assert Same(all[k], all[|before|]);
      SameMeans(first.value, b);
    }
  }

  lemma NoConflict()
    ensures !Conflict([])
  {
  }

  /** A new block conflicts exactly with the first one at its address. */
  lemma ConflictNext(before: seq<Block>, b: Block)
    requires !Conflict(before)
    ensures Conflict(before + [b]) <==> FirstAt(before, Address(b)).Some? && !Same(FirstAt(before, Address(b)).value, b)
  {
    var all := before + [b];
    var first := FirstAt(before, Address(b));
    if first.Some? {
      var k :| 0 <= k < |before| && before[k] == first.value;
      if !Same(first.value, b) {
        assert all[k] == first.value && all[|before|] == b;
      } else {
        forall i, j | 0 <= i < j < |all| && Address(all[i]) == Address(all[j]) ensures Same(all[i], all[j]) {
          if j == |before| {
            assert all[i] == before[i];
            assert i < k ==> Same(before[i], before[k]);
            assert k < i ==> Same(before[k], before[i]);
          } else {
            assert all[i] == before[i] && all[j] == before[j];
          }
        }
      }
    } else {
      forall i, j | 0 <= i < j < |all| && Address(all[i]) == Address(all[j]) ensures Same(all[i], all[j]) {
        assert all[i] == before[i];
        assert j < |before|;
        assert all[j] == before[j];
      }
    }
  }

  lemma ConflictPrefix(input: seq<Block>, n: nat)
    requires n <= |input| && Conflict(input[..n])
    ensures Conflict(input)
  {
    var i, j :| 0 <= i < j < n && Address(input[..n][i]) == Address(input[..n][j])
                && !Same(input[..n][i], input[..n][j]);
    assert input[i] == input[..n][i] && input[j] == input[..n][j];
  }

  // ---------------------------------------------------------------- writing the merge

  predicate NoHigher(a: nat, b: nat) {
    a <= b
  }

  lemma LeastAddress(s: set<nat>) returns (least: nat)
    requires s != {}
    ensures least in s && forall b :: b in s ==> least <= b
  {
    Collections.LeastExists(s, NoHigher);
    least :| Collections.IsLeast(s, NoHigher, least);
    assert forall b :: b in s ==> b == least || NoHigher(least, b);
  }

  method SortedAddresses(keys: set<nat>) returns (s: seq<nat>)
    ensures forall i, j :: 0 <= i < j < |s| ==> s[i] < s[j]
    ensures forall a: nat :: a in s <==> a in keys
  {
    s := [];
    var rest := keys;
    while rest != {}
      invariant rest <= keys
      invariant forall i, j :: 0 <= i < j < |s| ==> s[i] < s[j]
      invariant forall a: nat :: a in keys <==> a in s || a in rest
      invariant forall i, b :: 0 <= i < |s| && b in rest ==> s[i] < b
      decreases |rest|
    {
      ghost var least := LeastAddress(rest);
      var a :| a in rest && forall b :: b in rest ==> a <= b;
      s := s + [a];
      rest := rest - {a};
    }
  }

  /** Distinct page addresses below 2^32 are fewer than 2^32. */
  lemma {:induction false} PagesAreFew(s: seq<nat>)
    requires forall i, j :: 0 <= i < j < |s| ==> s[i] < s[j]
    requires forall i :: 0 <= i < |s| ==> s[i] % PAGE == 0 && s[i] < WORD
    ensures forall i :: 0 <= i < |s| ==> PAGE * i <= s[i]
    ensures |s| < WORD
  {
    if |s| > 1 {
      var n := |s| - 1;
      PagesAreFew(s[..n]);
      assert s[n - 1] == s[..n][n - 1];
      forall i | 0 <= i < |s| ensures PAGE * i <= s[i] {
        if i < n {
          assert s[i] == s[..n][i];
        } else {
          NextMultiple(s[n - 1], s[n]);
        }
      }
    }
  }

  lemma NextMultiple(a: nat, b: nat)
    requires a < b && a % PAGE == 0 && b % PAGE == 0
    ensures a + PAGE <= b
  {
  }

  lemma BaseIs(input: seq<Block>, a: nat)
    requires AllValid(input) && Occupied(input, a)
    ensures Address(Base(input, a)) == a && ValidBlock(Base(input, a)) && a < WORD && a % PAGE == 0
    ensures FirstAt(input, a).None? ==> Written(Base(input, a)) && forall i :: 32 <= i < 508 ==> Base(input, a)[i] == 0
  {
    if FirstAt(input, a).None? {
      MissingFits(input, a);
      DummyIs(Template(input, a / SECTOR).value, a);
    }
  }

  /** What a merge of two files comes to: the merged file, or why they cannot be merged. */
  ghost predicate MergesTo(boot: seq<byte>, application: seq<byte>, r: Result<seq<byte>, Uf2Error>) {
    var b1, b2 := Uf2Blocks(boot), Uf2Blocks(application);
    if b1.Err? || b2.Err? then r == Err(Malformed)
    else
      var input := b1.value + b2.value;
      if Conflict(input) then r == Err(Overlapping)
      else if !AnyWritten(input) then r == Err(NoBlocks)
      else r.Ok? && exists out :: Merged(input, out) && r.value == Join(out)
  }

  /** The merge of two files, or why they cannot be merged. */
  method Merge(boot: seq<byte>, application: seq<byte>) returns (r: Result<seq<byte>, Uf2Error>)
    ensures MergesTo(boot, application, r)
  {
    var b1, b2 := Uf2Blocks(boot), Uf2Blocks(application);
    if b1.Err? || b2.Err? {
      return Err(Malformed);
    }
    var input := b1.value + b2.value;
    assert AllValid(input);
    var image := new Image();
    var ok := image.Collect(input);
    if !ok {
      return Err(Overlapping);
    }
    ok := image.Pad(input);
    if !ok {
      return Err(NoBlocks);
    }
    var out := Numbered(image.blocks, input);
    return Ok(Join(out));
  }

  method Numbered(blocks: map<nat, Block>, ghost input: seq<Block>) returns (out: seq<Block>)
    requires AllValid(input)
    requires Complete(blocks, input)
    ensures Merged(input, out)
  {
    hide Address, Renumber, Base, Occupied;
    var addresses: seq<nat> := SortedAddresses(blocks.Keys);
    forall i | 0 <= i < |addresses| ensures addresses[i] % PAGE == 0 && addresses[i] < WORD {
      BaseIs(input, addresses[i]);
    }
    PagesAreFew(addresses);
    out := [];
    var index := 0;
    while index < |addresses|
      invariant index <= |addresses| && |out| == index
      invariant forall i :: 0 <= i < index ==>
                  Address(out[i]) == addresses[i] && out[i] == Renumber(blocks[addresses[i]], i, |addresses|)
    {
      var block := blocks[addresses[index]];
      RenumberKeeps(block, index, |addresses|);
      BaseIs(input, addresses[index]);
      out := out + [Renumber(block, index, |addresses|)];
      index := index + 1;
    }
    MergedFrom(input, addresses, out);
  }

  lemma MergedFrom(input: seq<Block>, addresses: seq<nat>, out: seq<Block>)
    requires |out| == |addresses| < WORD
    requires forall i, j :: 0 <= i < j < |addresses| ==> addresses[i] < addresses[j]
    requires forall a: nat :: a in addresses <==> Occupied(input, a)
    requires forall i :: 0 <= i < |out| ==> Occupied(input, addresses[i]) && Address(out[i]) == addresses[i]
    requires forall i :: 0 <= i < |out| ==> out[i] == Renumber(Base(input, addresses[i]), i, |addresses|)
    ensures Merged(input, out)
  {
    hide Address, Renumber, Base, Occupied;
    forall a: nat | Occupied(input, a) ensures exists i :: 0 <= i < |out| && Address(out[i]) == a {
      var i :| 0 <= i < |addresses| && addresses[i] == a;
      assert Address(out[i]) == a;
    }
  }
}
