/** What a merge of UF2 images guarantees. */
module Uf2Properties {
  import opened Outcomes
  import opened Uf2

  lemma BlockOf(input: seq<Block>, out: seq<Block>, i: nat)
    requires AllValid(input) && Merged(input, out) && i < |out|
    ensures var a := Address(out[i]);
            && Occupied(input, a) && Same(out[i], Base(input, a)) && a % PAGE == 0
            && ValidBlock(out[i]) && U32(out[i], 20) == i && U32(out[i], 24) == |out|
            && (Written(out[i]) <==> Written(Base(input, a)))
  {
    hide Renumber, Base, Same, Occupied, ValidBlock;
    var a := Address(out[i]);
    BaseIs(input, a);
    RenumberKeeps(Base(input, a), i, |out|);
  }

  /** Every input block survives, apart from its number. */
  lemma MergeKeeps(input: seq<Block>, out: seq<Block>, k: nat)
    requires AllValid(input) && !Conflict(input) && Merged(input, out) && k < |input|
    ensures exists i :: 0 <= i < |out| && Same(out[i], input[k])
  {
    var a := Address(input[k]);
    var first := FirstAt(input, a);
    assert first.Some?;
    assert Same(first.value, input[k]) by {
      var j :| 0 <= j < |input| && input[j] == first.value;
      assert j < k ==> Same(input[j], input[k]);
      assert k < j ==> Same(input[k], input[j]);
    }
    assert Occupied(input, a);
    var i :| 0 <= i < |out| && Address(out[i]) == a;
    BlockOf(input, out, i);
  }

  /** A block that no input has is a written page of zeros: missing, in a touched sector, not the last. */
  lemma MergeFills(input: seq<Block>, out: seq<Block>, i: nat)
    requires AllValid(input) && Merged(input, out) && i < |out| && FirstAt(input, Address(out[i])).None?
    ensures Missing(input, Address(out[i])) && Written(out[i])
    ensures forall k :: 32 <= k < 508 ==> out[i][k] == 0
  {
    var a := Address(out[i]);
    BlockOf(input, out, i);
    BaseIs(input, a);
    forall k | 32 <= k < 508 ensures out[i][k] == 0 {
      assert out[i][k] == out[i][28..][k - 28] && Base(input, a)[k] == Base(input, a)[28..][k - 28];
    }
  }

  /** No page of a touched sector below the last written page is left without a block. */
  lemma MergeCovers(input: seq<Block>, out: seq<Block>, a: nat)
    requires Merged(input, out) && a % PAGE == 0 && Template(input, a / SECTOR).Some? && BelowLast(input, a)
    ensures exists i :: 0 <= i < |out| && Address(out[i]) == a
  {
    assert Occupied(input, a);
  }

  /** The output is a well-formed file again. */
  lemma MergePasses(input: seq<Block>, out: seq<Block>)
    requires AllValid(input) && Merged(input, out)
    ensures Uf2Blocks(Join(out)) == Ok(out)
  {
    hide ValidBlock, Join, Split, Merged;
    forall i | 0 <= i < |out| ensures ValidBlock(out[i]) {
      BlockOf(input, out, i);
    }
    SplitJoin(out);
  }

  /** `Merged` determines the output. */
  lemma MergeUnique(input: seq<Block>, o1: seq<Block>, o2: seq<Block>)
    requires Merged(input, o1) && Merged(input, o2)
    ensures o1 == o2
  {
    SortedAgree(Addresses(o1), Addresses(o2));
    assert |o1| == |o2|;
    forall i | 0 <= i < |o1| ensures o1[i] == o2[i] {
      assert Address(o1[i]) == Addresses(o1)[i] == Addresses(o2)[i] == Address(o2[i]);
    }
  }

  ghost function Addresses(blocks: seq<Block>): (r: seq<nat>)
    ensures |r| == |blocks|
    ensures forall i :: 0 <= i < |r| ==> r[i] == Address(blocks[i])
  {
    seq(|blocks|, i requires 0 <= i < |blocks| => Address(blocks[i]))
  }

  /** Strictly sorted lists with the same elements are the same. */
  lemma SortedAgree(s: seq<nat>, t: seq<nat>)
    requires forall i, j :: 0 <= i < j < |s| ==> s[i] < s[j]
    requires forall i, j :: 0 <= i < j < |t| ==> t[i] < t[j]
    requires forall a: nat :: a in s <==> a in t
    ensures s == t
  {
    RisingAgree(s, t);
  }

  ghost predicate Rising(s: seq<nat>) {
    forall i, j :: 0 <= i < j < |s| ==> s[i] < s[j]
  }

  ghost predicate Alike(s: seq<nat>, t: seq<nat>) {
    forall a: nat :: a in s <==> a in t
  }

  lemma {:induction false} RisingAgree(s: seq<nat>, t: seq<nat>)
    requires Rising(s) && Rising(t) && Alike(s, t)
    ensures s == t
    decreases |s|
  {
    assert |s| > 0 ==> s[0] in s;
    assert |t| > 0 ==> t[0] in t;
    if s != [] && t != [] {
      DropLargest(s, t);
      hide Rising, Alike;
      RisingAgree(s[..|s| - 1], t[..|t| - 1]);
      assert s == s[..|s| - 1] + [s[|s| - 1]] && t == t[..|t| - 1] + [t[|t| - 1]];
    }
  }

  lemma DropLargest(s: seq<nat>, t: seq<nat>)
    requires s != [] && t != [] && Rising(s) && Rising(t) && Alike(s, t)
    ensures s[|s| - 1] == t[|t| - 1]
    ensures Rising(s[..|s| - 1]) && Rising(t[..|t| - 1]) && Alike(s[..|s| - 1], t[..|t| - 1])
  {
    var x, y := s[|s| - 1], t[|t| - 1];
    assert x in s && y in t;
    assert x in t && y in s;
    assert x == y;
    var u, v := s[..|s| - 1], t[..|t| - 1];
    assert s == u + [x] && t == v + [x];
    RisingOnce(u, x);
    RisingOnce(v, x);
    hide Rising;
    AlikeDrop(u, v, x);
  }

  lemma AlikeDrop(s: seq<nat>, t: seq<nat>, x: nat)
    requires x !in s && x !in t && Alike(s + [x], t + [x])
    ensures Alike(s, t)
  {
    forall a: nat ensures a in s <==> a in t {
      assert a in s + [x] <==> a in s || a == x;
      assert a in t + [x] <==> a in t || a == x;
    }
  }

  lemma RisingOnce(s: seq<nat>, x: nat)
    ensures Rising(s + [x]) ==> Rising(s) && x !in s
  {
    var all := s + [x];
    assert all[|s|] == x && forall i :: 0 <= i < |s| ==> all[i] == s[i];
  }

  // ---------------------------------------------------------------- merging again

  lemma OutputFirst(out: seq<Block>, i: nat)
    requires i < |out| && forall i, j :: 0 <= i < j < |out| ==> Address(out[i]) < Address(out[j])
    ensures FirstAt(out + out, Address(out[i])) == Some(out[i])
  {
    var first := FirstAt(out + out, Address(out[i]));
    assert (out + out)[i] == out[i];
    var k :| 0 <= k < |out + out| && (out + out)[k] == first.value;
    assert first.value == out[if k < |out| then k else k - |out|];
  }

  /** Every written page of the output is a written input page or lies below one, in its sector. */
  lemma OutputBelow(input: seq<Block>, out: seq<Block>, a: nat)
    requires AllValid(input) && Merged(input, out)
    ensures BelowLast(out, a) ==> BelowLast(input, a)
    ensures Template(out, a / SECTOR).Some? ==> Template(input, a / SECTOR).Some?
  {
    hide Written, Address, Renumber, Same, ValidBlock, Merged;
    if BelowLast(out, a) {
      var i :| 0 <= i < |out| && Written(out[i]) && a < Address(out[i]);
      OutputOrigin(input, out, i);
    }
    if Template(out, a / SECTOR).Some? {
      var i :| 0 <= i < |out| && Written(out[i]) && Address(out[i]) / SECTOR == a / SECTOR;
      OutputOrigin(input, out, i);
    }
  }

  lemma OutputOrigin(input: seq<Block>, out: seq<Block>, i: nat)
    requires AllValid(input) && Merged(input, out) && i < |out| && Written(out[i])
    ensures Template(input, Address(out[i]) / SECTOR).Some?
    ensures exists k :: 0 <= k < |input| && Written(input[k]) && Address(out[i]) <= Address(input[k])
  {
    var a := Address(out[i]);
    BlockOf(input, out, i);
    if FirstAt(input, a).Some? {
      var k :| 0 <= k < |input| && input[k] == FirstAt(input, a).value;
      assert Written(input[k]) && Address(input[k]) == a;
    }
  }

  /** Merging an output with itself is not rejected and gives the output again. */
  lemma MergeIdempotent(input: seq<Block>, out: seq<Block>)
    requires AllValid(input) && AnyWritten(input) && !Conflict(input) && Merged(input, out)
    ensures !Conflict(out + out) && AnyWritten(out + out)
    ensures Merged(out + out, out)
    ensures forall again :: Merged(out + out, again) ==> again == out
  {
    hide Conflict, AnyWritten, Merged;
    OutputSorted(input, out);
    TwiceNoConflict(out);
    OutputWritten(input, out);
    TwiceMerged(input, out);
    forall again | Merged(out + out, again) ensures again == out {
      MergeUnique(out + out, again, out);
    }
  }

  lemma OutputSorted(input: seq<Block>, out: seq<Block>)
    requires Merged(input, out)
    ensures forall i, j :: 0 <= i < j < |out| ==> Address(out[i]) < Address(out[j])
  {
  }

  lemma OutputWritten(input: seq<Block>, out: seq<Block>)
    requires AllValid(input) && AnyWritten(input) && !Conflict(input) && Merged(input, out)
    ensures AnyWritten(out) && AnyWritten(out + out)
  {
    hide Conflict, Merged, ValidBlock, Written, Same;
    var k :| 0 <= k < |input| && Written(input[k]);
    MergeKeeps(input, out, k);
    var i :| 0 <= i < |out| && Same(out[i], input[k]);
    SameWritten(out[i], input[k]);
    assert (out + out)[i] == out[i];
  }

  lemma SameWritten(a: Block, b: Block)
    requires Same(a, b)
    ensures Written(a) <==> Written(b)
  {
    SameMeans(a, b);
  }

  lemma TwiceNoConflict(out: seq<Block>)
    requires forall i, j :: 0 <= i < j < |out| ==> Address(out[i]) < Address(out[j])
    ensures !Conflict(out + out)
  {
    var all := out + out;
    forall i, j | 0 <= i < j < |all| && Address(all[i]) == Address(all[j]) ensures Same(all[i], all[j]) {
      var i', j' := if i < |out| then i else i - |out|, if j < |out| then j else j - |out|;
      assert all[i] == out[i'] && all[j] == out[j'];
    }
  }

  lemma TwiceMerged(input: seq<Block>, out: seq<Block>)
    requires AllValid(input) && Merged(input, out)
    ensures Merged(out + out, out)
  {
    var all := out + out;
    forall a: nat | Occupied(all, a) ensures exists i :: 0 <= i < |out| && Address(out[i]) == a {
      TwiceOccupied(input, out, a);
    }
    forall i | 0 <= i < |out|
      ensures Occupied(all, Address(out[i])) && out[i] == Renumber(Base(all, Address(out[i])), i, |out|)
    {
      TwiceBase(input, out, i);
    }
  }

  lemma TwiceOccupied(input: seq<Block>, out: seq<Block>, a: nat)
    requires AllValid(input) && Merged(input, out) && Occupied(out + out, a)
    ensures exists i :: 0 <= i < |out| && Address(out[i]) == a
  {
    hide Merged, ValidBlock, Renumber, Base;
    var all := out + out;
    if FirstAt(all, a).Some? {
      var k :| 0 <= k < |all| && Address(all[k]) == a;
      assert all[k] == out[if k < |out| then k else k - |out|];
    } else {
      TwiceBelow(out, a);
      OutputBelow(input, out, a);
      MergeCovers(input, out, a);
    }
  }

  lemma TwiceBase(input: seq<Block>, out: seq<Block>, i: nat)
    requires AllValid(input) && Merged(input, out) && i < |out|
    ensures Occupied(out + out, Address(out[i])) && out[i] == Renumber(Base(out + out, Address(out[i])), i, |out|)
  {
    OutputFirst(out, i);
    BlockOf(input, out, i);
    RenumberedStays(out[i], i, |out|);
    hide Renumber, Merged;
  }

  lemma TwiceBelow(out: seq<Block>, a: nat)
    ensures BelowLast(out + out, a) ==> BelowLast(out, a)
    ensures Template(out + out, a / SECTOR).Some? ==> Template(out, a / SECTOR).Some?
  {
    var all := out + out;
    assert forall k :: 0 <= k < |all| ==> all[k] == out[if k < |out| then k else k - |out|];
  }

  /** Writing the numbers a block already has changes nothing. */
  lemma RenumberedStays(b: Block, index: nat, count: nat)
    requires index < WORD && count < WORD && U32(b, 20) == index && U32(b, 24) == count
    ensures Renumber(b, index, count) == b
  {
    PutSame(b, 20, index);
    PutSame(b, 24, count);
  }

  lemma PutSame(b: Block, at: nat, v: nat)
    requires at + 4 <= 512 && v < WORD && U32(b, at) == v
    ensures Put(b, at, v) == b
  {
    var r := Put(b, at, v);
    DigitsUnique(r[at], r[at + 1], r[at + 2], r[at + 3], b[at], b[at + 1], b[at + 2], b[at + 3]);
    forall i | 0 <= i < 512 ensures r[i] == b[i] {
    }
  }

  lemma DigitsUnique(a0: byte, a1: byte, a2: byte, a3: byte, b0: byte, b1: byte, b2: byte, b3: byte)
    requires a0 as int + 256 * (a1 as int) + 65536 * (a2 as int) + 16777216 * (a3 as int)
          == b0 as int + 256 * (b1 as int) + 65536 * (b2 as int) + 16777216 * (b3 as int)
    ensures a0 == b0 && a1 == b1 && a2 == b2 && a3 == b3
  {
    var c0: int, c1: int, c2: int, c3: int := a0, a1, a2, a3;
    var d0: int, d1: int, d2: int, d3: int := b0, b1, b2, b3;
    LowByte(c1 + 256 * (c2 + 256 * c3), c0, d1 + 256 * (d2 + 256 * d3), d0);
    LowByte(c2 + 256 * c3, c1, d2 + 256 * d3, d1);
    LowByte(c3, c2, d3, d2);
  }

  // ---------------------------------------------------------------- the order of the images

  /** What flash holds after an image is written: the payload of a written page. */
  ghost function PageAt(out: seq<Block>, a: nat): Option<seq<byte>> {
    var b := FirstAt(out, a);
    if b.Some? && Written(b.value) then Some(b.value[32..32 + PAGE]) else None
  }

  ghost predicate SameBlocks(x: seq<Block>, y: seq<Block>) {
    forall b: Block :: b in x <==> b in y
  }

  /** Conflicts, emptiness and occupied addresses do not depend on the order. */
  lemma OrderFree(x: seq<Block>, y: seq<Block>)
    requires SameBlocks(x, y)
    ensures Conflict(x) ==> Conflict(y)
    ensures AnyWritten(x) ==> AnyWritten(y)
    ensures forall a: nat :: FirstAt(x, a).Some? ==> FirstAt(y, a).Some?
    ensures forall a: nat :: Occupied(x, a) ==> Occupied(y, a)
  {
    hide Written, Address, Same, Conflict, FirstAt, Template, BelowLast;
    ConflictOrderFree(x, y);
    if AnyWritten(x) {
      var i :| 0 <= i < |x| && Written(x[i]);
      var k := IndexIn(x, y, i);
    }
    forall a: nat | FirstAt(x, a).Some? ensures FirstAt(y, a).Some? {
      var i :| 0 <= i < |x| && Address(x[i]) == a;
      var k := IndexIn(x, y, i);
    }
    forall a: nat | Occupied(x, a) ensures Occupied(y, a) {
      if Missing(x, a) {
        MissingOrderFree(x, y, a);
      }
    }
  }

  lemma IndexIn(x: seq<Block>, y: seq<Block>, i: nat) returns (k: nat)
    requires SameBlocks(x, y) && i < |x|
    ensures k < |y| && y[k] == x[i]
  {
    assert x[i] in y;
    k :| 0 <= k < |y| && y[k] == x[i];
  }

  lemma ConflictOrderFree(x: seq<Block>, y: seq<Block>)
    requires SameBlocks(x, y)
    ensures Conflict(x) ==> Conflict(y)
  {
    hide Address, Same, SameBlocks;
    if Conflict(x) {
      var i, j :| 0 <= i < j < |x| && Address(x[i]) == Address(x[j]) && !Same(x[i], x[j]);
      var k := IndexIn(x, y, i);
      var l := IndexIn(x, y, j);
      NotSame(x[i], x[j]);
      assert k < l || l < k;
    }
  }

  lemma NotSame(a: Block, b: Block)
    requires !Same(a, b)
    ensures !Same(b, a) && a != b
  {
  }

  lemma MissingOrderFree(x: seq<Block>, y: seq<Block>, a: nat)
    requires Missing(x, a) && SameBlocks(x, y)
    ensures Occupied(y, a)
  {
    hide Written, Address;
    var t :| 0 <= t < |x| && Written(x[t]) && Address(x[t]) / SECTOR == a / SECTOR;
    var l :| 0 <= l < |x| && Written(x[l]) && a < Address(x[l]);
    assert x[t] in y && x[l] in y;
    var t' :| 0 <= t' < |y| && y[t'] == x[t];
    var l' :| 0 <= l' < |y| && y[l'] == x[l];
  }

  /** The same blocks in another order give the same addresses and the same flash contents. */
  lemma MergeOrderFree(x: seq<Block>, y: seq<Block>, o1: seq<Block>, o2: seq<Block>)
    requires AllValid(x) && AllValid(y) && SameBlocks(x, y) && !Conflict(x)
    requires Merged(x, o1) && Merged(y, o2)
    ensures Addresses(o1) == Addresses(o2)
    ensures forall a: nat :: PageAt(o1, a) == PageAt(o2, a)
  {
    AddressesAgree(x, y, o1, o2);
    OutputSorted(x, o1);
    OutputSorted(y, o2);
    hide Address, Merged, Conflict, Written, PageAt, ValidBlock;
    forall a: nat ensures PageAt(o1, a) == PageAt(o2, a) {
      if i :| 0 <= i < |o1| && Addresses(o1)[i] == a {
        SamePage(x, y, o1, o2, i);
        OnlyAt(o1, i);
        OnlyAt(o2, i);
      } else {
        NoPage(o1, a);
        NoPage(o2, a);
      }
    }
  }

  lemma NoPage(out: seq<Block>, a: nat)
    requires a !in Addresses(out)
    ensures PageAt(out, a) == None
  {
    assert forall i :: 0 <= i < |out| ==> Addresses(out)[i] in Addresses(out);
  }

  lemma AddressesAgree(x: seq<Block>, y: seq<Block>, o1: seq<Block>, o2: seq<Block>)
    requires SameBlocks(x, y) && Merged(x, o1) && Merged(y, o2)
    ensures Addresses(o1) == Addresses(o2)
  {
    hide Address, Renumber, Base;
    OrderFree(x, y);
    OrderFree(y, x);
    hide Occupied;
    AddressIff(x, o1);
    AddressIff(y, o2);
    SortedAgree(Addresses(o1), Addresses(o2));
  }

  lemma AddressIff(input: seq<Block>, out: seq<Block>)
    requires Merged(input, out)
    ensures forall a: nat :: a in Addresses(out) <==> Occupied(input, a)
  {
    hide Address, Renumber, Base, Occupied;
    forall a: nat ensures a in Addresses(out) <==> Occupied(input, a) {
      if Occupied(input, a) {
        var i :| 0 <= i < |out| && Address(out[i]) == a;
        assert Addresses(out)[i] == a;
      }
    }
  }

  lemma OnlyAt(out: seq<Block>, i: nat)
    requires i < |out| && forall i, j :: 0 <= i < j < |out| ==> Address(out[i]) < Address(out[j])
    ensures PageAt(out, Address(out[i])) == if Written(out[i]) then Some(out[i][32..32 + PAGE]) else None
  {
    hide Address, Written;
    assert FirstAt(out, Address(out[i])).Some?;
    var k :| 0 <= k < |out| && out[k] == FirstAt(out, Address(out[i])).value;
    assert Address(out[k]) == Address(out[i]);
    assert k == i;
  }

  lemma SamePage(x: seq<Block>, y: seq<Block>, o1: seq<Block>, o2: seq<Block>, i: nat)
    requires AllValid(x) && AllValid(y) && SameBlocks(x, y) && !Conflict(x)
    requires Merged(x, o1) && Merged(y, o2) && i < |o1| && i < |o2| && Address(o1[i]) == Address(o2[i])
    ensures Written(o1[i]) <==> Written(o2[i])
    ensures o1[i][32..32 + PAGE] == o2[i][32..32 + PAGE]
  {
    hide Conflict, ValidBlock, Merged, Template, BelowLast;
    var a := Address(o1[i]);
    OrderFree(x, y);
    OrderFree(y, x);
    BlockOf(x, o1, i);
    BlockOf(y, o2, i);
    SameMeans(o1[i], Base(x, a));
    SameMeans(o2[i], Base(y, a));
    if FirstAt(x, a).Some? {
      var p, q := FirstAt(x, a).value, FirstAt(y, a).value;
      SameInList(x, p, q);
      SameMeans(p, q);
    } else {
      MergeFills(x, o1, i);
      MergeFills(y, o2, i);
    }
  }

  lemma SameInList(x: seq<Block>, p: Block, q: Block)
    requires !Conflict(x) && p in x && q in x && Address(p) == Address(q)
    ensures Same(p, q)
  {
    var i :| 0 <= i < |x| && x[i] == p;
    var j :| 0 <= j < |x| && x[j] == q;
    if i != j {
      assert Same(x[if i < j then i else j], x[if i < j then j else i]);
    }
  }

  /** Swapping boot and application: the same rejection, or the same flash contents. */
  lemma MergeSwapped(boot: seq<Block>, application: seq<Block>, o1: seq<Block>, o2: seq<Block>)
    requires AllValid(boot) && AllValid(application)
    ensures Conflict(boot + application) <==> Conflict(application + boot)
    ensures AnyWritten(boot + application) <==> AnyWritten(application + boot)
    ensures !Conflict(boot + application) && Merged(boot + application, o1) && Merged(application + boot, o2) ==>
              Addresses(o1) == Addresses(o2) && forall a: nat :: PageAt(o1, a) == PageAt(o2, a)
  {
    hide Conflict, AnyWritten, Merged, ValidBlock, Addresses, PageAt;
    var x, y := boot + application, application + boot;
    assert SameBlocks(x, y);
    assert AllValid(x) && AllValid(y);
    OrderFree(x, y);
    OrderFree(y, x);
    if !Conflict(x) && Merged(x, o1) && Merged(y, o2) {
      MergeOrderFree(x, y, o1, o2);
    }
  }

  // ---------------------------------------------------------------- the range of an image

  /** The block a dictionary by address keeps for an address: the last one. */
  function LastAt(blocks: seq<Block>, a: nat): (r: Option<Block>)
    ensures r.Some? ==> r.value in blocks && Address(r.value) == a
    ensures r.Some? <==> exists i :: 0 <= i < |blocks| && Address(blocks[i]) == a
  {
    if blocks == [] then None
    else
      var n := |blocks| - 1;
      assert forall i :: 0 <= i < n ==> blocks[i] == blocks[..n][i];
      if Address(blocks[n]) == a then Some(blocks[n]) else LastAt(blocks[..n], a)
  }

  predicate FlashPage(blocks: seq<Block>, i: nat)
    requires i < |blocks|
  {
    var last := LastAt(blocks, Address(blocks[i]));
    last.Some? && Written(last.value)
  }

  predicate AnyFlash(blocks: seq<Block>) {
    exists i :: 0 <= i < |blocks| && FlashPage(blocks, i)
  }

  /** The lowest flash page is at start. */
  predicate FlashFrom(blocks: seq<Block>, start: nat) {
    && (exists i :: 0 <= i < |blocks| && FlashPage(blocks, i) && Address(blocks[i]) == start)
    && (forall i :: 0 <= i < |blocks| && FlashPage(blocks, i) ==> start <= Address(blocks[i]))
  }

  predicate FlashUpTo(blocks: seq<Block>, end: nat) {
    forall i :: 0 <= i < |blocks| && FlashPage(blocks, i) ==> Address(blocks[i]) + PAGE <= end
  }

  /** Every written page lies in [start, end), the first one at start. */
  function CheckRange(data: seq<byte>, start: nat, end: nat): Result<(), Uf2Error> {
    var image := Uf2Blocks(data);
    if start % PAGE != 0 || end <= start then Err(BadRange)
    else if image.Err? then Err(image.error)
    else if !AnyFlash(image.value) then Err(NoBlocks)
    else if !FlashFrom(image.value, start) then Err(WrongStart)
    else if !FlashUpTo(image.value, end) then Err(PastEnd)
    else Ok(())
  }

  /** The written pages of the inputs start at a given page and leave none below it. */
  ghost predicate StartsAt(input: seq<Block>, start: nat) {
    && (exists i :: 0 <= i < |input| && Written(input[i]) && Address(input[i]) == start)
    && (forall i :: 0 <= i < |input| && Written(input[i]) ==> start <= Address(input[i]))
  }

  /** Every page of the first sector below the start has a block, which then is one that flash never gets. */
  ghost predicate LowerFilled(input: seq<Block>, start: nat) {
    forall a: nat :: a % PAGE == 0 && a / SECTOR == start / SECTOR && a < start ==> FirstAt(input, a).Some?
  }

  /**
   The merged image passes the range check exactly when every input page ends inside the region and
   padding adds no page below its start; above, padding never leaves it.
   */
  lemma PaddingStaysInRange(input: seq<Block>, out: seq<Block>, start: nat, end: nat)
    requires AllValid(input) && !Conflict(input) && Merged(input, out)
    requires start < end && StartsAt(input, start)
    ensures CheckRange(Join(out), start, end) == Ok(()) <==>
              && LowerFilled(input, start)
              && forall i :: 0 <= i < |input| && Written(input[i]) ==> Address(input[i]) + PAGE <= end
    ensures start % SECTOR == 0 ==> LowerFilled(input, start)
  {
    StartsOnPage(input, start);
    AlignedFilled(input, start);
    hide Merged, Conflict, Written, Address, StartsAt, CheckRange, ValidBlock, LowerFilled;
    MergePasses(input, out);
    FlashPages(input, out);
    RangeLow(input, out, start);
    RangeHigh(input, out, end);
    FlashFromIs(out, start);
    FlashUpToIs(out, end);
    hide FlashUpTo, FlashFrom, AnyFlash, FlashPage;
    CheckRangeIs(out, start, end);
  }

  lemma StartsOnPage(input: seq<Block>, start: nat)
    requires AllValid(input) && StartsAt(input, start)
    ensures start % PAGE == 0
  {
  }

  /** An aligned start has no page below it in its sector. */
  lemma AlignedFilled(input: seq<Block>, start: nat)
    ensures start % SECTOR == 0 ==> LowerFilled(input, start)
  {
    forall a: nat | start % SECTOR == 0 && a / SECTOR == start / SECTOR ensures start <= a {
      assert start == start / SECTOR * SECTOR;
    }
  }

  lemma CheckRangeIs(out: seq<Block>, start: nat, end: nat)
    requires Uf2Blocks(Join(out)) == Ok(out) && start % PAGE == 0 && start < end && AnyFlash(out)
    ensures CheckRange(Join(out), start, end) == Ok(()) <==> FlashFrom(out, start) && FlashUpTo(out, end)
  {
    hide Uf2Blocks, Join, FlashUpTo, FlashFrom, AnyFlash;
  }

  lemma FlashFromIs(out: seq<Block>, start: nat)
    requires forall i :: 0 <= i < |out| ==> (FlashPage(out, i) <==> Written(out[i]))
    requires exists i :: 0 <= i < |out| && Written(out[i]) && Address(out[i]) == start
    ensures AnyFlash(out)
    ensures FlashFrom(out, start) <==> forall i :: 0 <= i < |out| && Written(out[i]) ==> start <= Address(out[i])
  {
    hide Written, Address, FlashPage;
    var i :| 0 <= i < |out| && Written(out[i]) && Address(out[i]) == start;
    assert FlashPage(out, i);
  }

  lemma FlashUpToIs(out: seq<Block>, end: nat)
    requires forall i :: 0 <= i < |out| ==> (FlashPage(out, i) <==> Written(out[i]))
    ensures FlashUpTo(out, end) <==> forall i :: 0 <= i < |out| && Written(out[i]) ==> Address(out[i]) + PAGE <= end
  {
    hide Written, Address, FlashPage;
  }

  /** In an output every block is the only one of its address. */
  lemma FlashPages(input: seq<Block>, out: seq<Block>)
    requires Merged(input, out)
    ensures forall i :: 0 <= i < |out| ==> (FlashPage(out, i) <==> Written(out[i]))
  {
    forall i | 0 <= i < |out| ensures FlashPage(out, i) <==> Written(out[i]) {
      var last := LastAt(out, Address(out[i])).value;
      var k :| 0 <= k < |out| && out[k] == last;
      assert k == i;
    }
  }

  lemma RangeLow(input: seq<Block>, out: seq<Block>, start: nat)
    requires AllValid(input) && !Conflict(input) && Merged(input, out) && StartsAt(input, start)
    ensures exists i :: 0 <= i < |out| && Written(out[i]) && Address(out[i]) == start
    ensures (forall i :: 0 <= i < |out| && Written(out[i]) ==> start <= Address(out[i])) <==> LowerFilled(input, start)
  {
    hide Merged, Conflict, Written, Address, Same;
    var k :| 0 <= k < |input| && Written(input[k]) && Address(input[k]) == start;
    var i := KeptAt(input, out, k);
    if LowerFilled(input, start) {
      forall j | 0 <= j < |out| && Written(out[j]) ensures start <= Address(out[j]) {
        NotBelow(input, out, start, j);
      }
    }
    if forall i :: 0 <= i < |out| && Written(out[i]) ==> start <= Address(out[i]) {
      forall a: nat | a % PAGE == 0 && a / SECTOR == start / SECTOR && a < start ensures FirstAt(input, a).Some? {
        FilledBelow(input, out, start, a);
      }
    }
  }

  /** With the lower pages filled, no page of the output that flash gets is below the start. */
  lemma NotBelow(input: seq<Block>, out: seq<Block>, start: nat, j: nat)
    requires AllValid(input) && Merged(input, out) && StartsAt(input, start) && LowerFilled(input, start)
    requires j < |out| && Written(out[j])
    ensures start <= Address(out[j])
  {
    var a := Address(out[j]);
    BlockOf(input, out, j);
    OutputOrigin(input, out, j);
    hide Merged, Written, Same, ValidBlock, LowerFilled;
    if FirstAt(input, a).Some? {
      var k :| 0 <= k < |input| && input[k] == FirstAt(input, a).value;
      assert Written(input[k]);
    } else {
      var t :| 0 <= t < |input| && Written(input[t]) && Address(input[t]) / SECTOR == a / SECTOR;
      SectorBelow(start, Address(input[t]), a);
      assert a < start ==> FirstAt(input, a).Some? by { FilledAt(input, start, a); }
    }
  }

  lemma SectorBelow(start: nat, t: nat, a: nat)
    requires start <= t && t / SECTOR == a / SECTOR
    ensures a < start ==> a / SECTOR == start / SECTOR
  {
  }

  lemma FilledAt(input: seq<Block>, start: nat, a: nat)
    requires LowerFilled(input, start)
    ensures a % PAGE == 0 && a / SECTOR == start / SECTOR && a < start ==> FirstAt(input, a).Some?
  {
  }

  /** A missing page below the start is filled with one that flash gets. */
  lemma FilledBelow(input: seq<Block>, out: seq<Block>, start: nat, a: nat)
    requires AllValid(input) && Merged(input, out) && StartsAt(input, start)
    requires a % PAGE == 0 && a / SECTOR == start / SECTOR && a < start
    requires forall i :: 0 <= i < |out| && Written(out[i]) ==> start <= Address(out[i])
    ensures FirstAt(input, a).Some?
  {
    hide Written, Address, Same, ValidBlock;
    var k :| 0 <= k < |input| && Written(input[k]) && Address(input[k]) == start;
    assert Template(input, a / SECTOR).Some? && BelowLast(input, a);
    MergeCovers(input, out, a);
    var i :| 0 <= i < |out| && Address(out[i]) == a;
    if FirstAt(input, a).None? {
      MergeFills(input, out, i);
    }
  }

  lemma KeptAt(input: seq<Block>, out: seq<Block>, k: nat) returns (i: nat)
    requires AllValid(input) && !Conflict(input) && Merged(input, out) && k < |input|
    ensures i < |out| && Address(out[i]) == Address(input[k]) && (Written(out[i]) <==> Written(input[k]))
  {
    hide Merged, Conflict;
    MergeKeeps(input, out, k);
    i :| 0 <= i < |out| && Same(out[i], input[k]);
    SameMeans(out[i], input[k]);
  }

  lemma RangeHigh(input: seq<Block>, out: seq<Block>, end: nat)
    requires AllValid(input) && !Conflict(input) && Merged(input, out)
    ensures (forall i :: 0 <= i < |out| && Written(out[i]) ==> Address(out[i]) + PAGE <= end) <==>
            (forall i :: 0 <= i < |input| && Written(input[i]) ==> Address(input[i]) + PAGE <= end)
  {
    hide Merged, Conflict, Written, Address;
    if forall i :: 0 <= i < |out| && Written(out[i]) ==> Address(out[i]) + PAGE <= end {
      forall k | 0 <= k < |input| && Written(input[k]) ensures Address(input[k]) + PAGE <= end {
        var i := KeptAt(input, out, k);
      }
    }
    if forall i :: 0 <= i < |input| && Written(input[i]) ==> Address(input[i]) + PAGE <= end {
      forall j | 0 <= j < |out| && Written(out[j]) ensures Address(out[j]) + PAGE <= end {
        OutputOrigin(input, out, j);
        var k :| 0 <= k < |input| && Written(input[k]) && Address(out[j]) <= Address(input[k]);
      }
    }
  }

  // ---------------------------------------------------------------- whole files

  /** The blocks a successful merge was made of and made. */
  lemma MergeParts(boot: seq<byte>, application: seq<byte>, file: seq<byte>)
    returns (input: seq<Block>, out: seq<Block>)
    requires MergesTo(boot, application, Ok(file))
    ensures Uf2Blocks(boot).Ok? && Uf2Blocks(application).Ok?
    ensures input == Uf2Blocks(boot).value + Uf2Blocks(application).value
    ensures AllValid(input) && !Conflict(input) && AnyWritten(input) && Merged(input, out) && file == Join(out)
    ensures Uf2Blocks(file) == Ok(out)
  {
    hide Conflict, AnyWritten, Merged;
    input := Uf2Blocks(boot).value + Uf2Blocks(application).value;
    out :| Merged(input, out) && file == Join(out);
    MergePasses(input, out);
  }

  /** A merge of two files has one result. */
  lemma FileMergeUnique(boot: seq<byte>, application: seq<byte>, r: Result<seq<byte>, Uf2Error>,
                        s: Result<seq<byte>, Uf2Error>)
    requires MergesTo(boot, application, r) && MergesTo(boot, application, s)
    ensures r == s
  {
    if r.Ok? && s.Ok? {
      var input, out := MergeParts(boot, application, r.value);
      var again, other := MergeParts(boot, application, s.value);
      hide MergesTo, Conflict, AnyWritten, Merged;
      MergeUnique(input, out, other);
    }
  }

  /** Merging a merged file with itself gives the same file, byte for byte. */
  lemma FileIdempotent(boot: seq<byte>, application: seq<byte>, file: seq<byte>, r: Result<seq<byte>, Uf2Error>)
    requires MergesTo(boot, application, Ok(file)) && MergesTo(file, file, r)
    ensures r == Ok(file)
  {
    var input, out := MergeParts(boot, application, file);
    MergeIdempotent(input, out);
    hide Conflict, AnyWritten, Merged;
    assert MergesTo(file, file, Ok(file));
    FileMergeUnique(file, file, r, Ok(file));
  }

  /** What flash holds after a file is written. */
  ghost function FlashAt(file: seq<byte>, a: nat): Option<seq<byte>> {
    if Uf2Blocks(file).Err? then None else PageAt(Uf2Blocks(file).value, a)
  }

  /** Swapping the files gives the same rejection or the same flash contents. */
  lemma FileSwapped(boot: seq<byte>, application: seq<byte>, r: Result<seq<byte>, Uf2Error>,
                    s: Result<seq<byte>, Uf2Error>)
    requires MergesTo(boot, application, r) && MergesTo(application, boot, s)
    ensures r.Err? || s.Err? ==> r == s
    ensures r.Ok? && s.Ok? ==> |r.value| == |s.value| && forall a: nat :: FlashAt(r.value, a) == FlashAt(s.value, a)
  {
    hide Conflict, AnyWritten, Merged, PageAt, ValidBlock, Addresses;
    var b1, b2 := Uf2Blocks(boot), Uf2Blocks(application);
    if b1.Ok? && b2.Ok? {
      MergeSwapped(b1.value, b2.value, [], []);
      if r.Ok? && s.Ok? {
        var x, o1 := MergeParts(boot, application, r.value);
        var y, o2 := MergeParts(application, boot, s.value);
        MergeSwapped(b1.value, b2.value, o1, o2);
        assert |Addresses(o1)| == |o1| && |Addresses(o2)| == |o2|;
      }
    }
  }

  /**
   A merged file of images that start at a page passes the range check exactly when they end in the
   region and no lower page of their first sector is missing; at a sector boundary none can be.
   */
  lemma FileInRange(boot: seq<byte>, application: seq<byte>, file: seq<byte>, start: nat, end: nat)
    requires MergesTo(boot, application, Ok(file)) && start < end
    requires StartsAt(Uf2Blocks(boot).value + Uf2Blocks(application).value, start)
    ensures var input := Uf2Blocks(boot).value + Uf2Blocks(application).value;
            && (CheckRange(file, start, end) == Ok(()) <==>
                  && LowerFilled(input, start)
                  && forall i :: 0 <= i < |input| && Written(input[i]) ==> Address(input[i]) + PAGE <= end)
            && (start % SECTOR == 0 ==> LowerFilled(input, start))
  {
    var input, out := MergeParts(boot, application, file);
    hide Conflict, AnyWritten, Merged, StartsAt, CheckRange, Written, Address, MergesTo, LowerFilled;
    PaddingStaysInRange(input, out, start, end);
  }
}
