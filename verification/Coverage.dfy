/** Tokens covered by the duplicated ranges of a file. */
module Coverage {
  /** A range of token numbers with both its ends. */
  datatype Range = Range(begin: int, end: int)

  predicate Covers(r: Range, x: int) {
    r.begin <= x <= r.end
  }

  ghost function Tokens(r: Range): set<int> {
    set x | r.begin <= x <= r.end && Covers(r, x)
  }

  /** Every token of some range. */
  ghost function Union(ranges: seq<Range>): set<int> {
    if ranges == [] then {} else Union(ranges[..|ranges| - 1]) + Tokens(ranges[|ranges| - 1])
  }

  lemma {:induction false} UnionHas(ranges: seq<Range>, x: int)
    ensures x in Union(ranges) <==> exists i :: 0 <= i < |ranges| && Covers(ranges[i], x)
  {
    if ranges != [] {
      var n := |ranges| - 1;
      UnionHas(ranges[..n], x);
      if i :| 0 <= i < |ranges| && Covers(ranges[i], x) {
        assert i < n ==> ranges[..n][i] == ranges[i];
      }
    }
  }

  lemma {:induction false} TokenCount(r: Range)
    requires r.begin <= r.end + 1
    ensures |Tokens(r)| == r.end - r.begin + 1
    decreases r.end - r.begin + 1
  {
    if r.begin <= r.end {
      TokenCount(Range(r.begin, r.end - 1));
      assert Tokens(r) == Tokens(Range(r.begin, r.end - 1)) + {r.end};
    } else {
      assert Tokens(r) == {};
    }
  }

  predicate Ordered(a: Range, b: Range) {
    a.begin < b.begin || (a.begin == b.begin && a.end <= b.end)
  }

  function Inserted(ranges: seq<Range>, r: Range): seq<Range> {
    if ranges == [] || Ordered(r, ranges[0]) then [r] + ranges else [ranges[0]] + Inserted(ranges[1..], r)
  }

  /** The ranges in order. */
  function Sort(ranges: seq<Range>): seq<Range> {
    if ranges == [] then [] else Inserted(Sort(ranges[1..]), ranges[0])
  }

  ghost predicate Sorted(ranges: seq<Range>) {
    forall i, j :: 0 <= i < j < |ranges| ==> Ordered(ranges[i], ranges[j])
  }

  lemma {:induction false} InsertedKeeps(ranges: seq<Range>, r: Range)
    ensures multiset(Inserted(ranges, r)) == multiset(ranges) + multiset{r}
  {
    if ranges != [] && !Ordered(r, ranges[0]) {
      InsertedKeeps(ranges[1..], r);
      assert ranges == [ranges[0]] + ranges[1..];
    }
  }

  lemma {:induction false} InsertedSorts(ranges: seq<Range>, r: Range)
    requires Sorted(ranges)
    ensures Sorted(Inserted(ranges, r))
  {
    if ranges != [] && !Ordered(r, ranges[0]) {
      var rest := Inserted(ranges[1..], r);
      InsertedSorts(ranges[1..], r);
      InsertedKeeps(ranges[1..], r);
      forall i | 0 <= i < |rest| ensures Ordered(ranges[0], rest[i]) {
        assert rest[i] in multiset(rest);
        if rest[i] != r {
          var k :| 0 <= k < |ranges[1..]| && ranges[1..][k] == rest[i];
          assert ranges[k + 1] == rest[i];
        }
      }
    }
  }

  lemma {:induction false} SortSorts(ranges: seq<Range>)
    ensures Sorted(Sort(ranges)) && multiset(Sort(ranges)) == multiset(ranges)
  {
    if ranges != [] {
      SortSorts(ranges[1..]);
      InsertedSorts(Sort(ranges[1..]), ranges[0]);
      InsertedKeeps(Sort(ranges[1..]), ranges[0]);
      assert ranges == [ranges[0]] + ranges[1..];
    }
  }

  lemma SameUnion(a: seq<Range>, b: seq<Range>)
    requires multiset(a) == multiset(b)
    ensures Union(a) == Union(b)
  {
    forall x ensures x in Union(a) <==> x in Union(b) {
      UnionHas(a, x);
      UnionHas(b, x);
      assert forall i :: 0 <= i < |a| ==> a[i] in multiset(b);
      assert forall i :: 0 <= i < |b| ==> b[i] in multiset(a);
    }
  }

  /**
   How many tokens the ranges cover, however they overlap: a sweep over the ranges in order that
   joins each to the run before it or closes that run.
   */
  method CoveredTokens(ranges: seq<Range>) returns (count: int)
    requires forall i :: 0 <= i < |ranges| ==> ranges[i].begin <= ranges[i].end
    ensures count == |Union(ranges)|
  {
    if ranges == [] {
      return 0;
    }
    var ordered := Sort(ranges);
    SortedInput(ranges);
    hide Union, Tokens, Sort;
    var begin, end, total := ordered[0].begin, ordered[0].end, 0;
    ghost var closed: set<int> := {};
    var i := 1;
    SweepStart(ordered);
    while i < |ordered|
      invariant 1 <= i <= |ordered| && Swept(ordered, i, begin, end, total, closed)
    {
      var next := ordered[i];
      SweepNext(ordered, i, begin, end, total, closed);
      if next.begin <= end + 1 {
        end := if end < next.end then next.end else end;
      } else {
        total := total + end - begin + 1;
        closed := closed + Tokens(Range(begin, end));
        begin, end := next.begin, next.end;
      }
      i := i + 1;
    }
    assert ordered[..i] == ordered;
    SweepEnd(ordered, begin, end, total, closed);
    return total + end - begin + 1;
  }

  lemma SortedInput(ranges: seq<Range>)
    requires ranges != [] && forall i :: 0 <= i < |ranges| ==> ranges[i].begin <= ranges[i].end
    ensures Union(ranges) == Union(Sort(ranges)) && |Sort(ranges)| > 0 && Sorted(Sort(ranges))
    ensures forall i :: 0 <= i < |Sort(ranges)| ==> Sort(ranges)[i].begin <= Sort(ranges)[i].end
  {
    var ordered := Sort(ranges);
    SortSorts(ranges);
    SameUnion(ranges, ordered);
    hide Sort, Union;
    assert |ordered| == |multiset(ordered)| == |multiset(ranges)| == |ranges|;
    forall i | 0 <= i < |ordered| ensures ordered[i].begin <= ordered[i].end {
      assert ordered[i] in multiset(ranges);
    }
  }

  /** The ranges so far are closed runs of `total` tokens, all before one open run. */
  ghost predicate Swept(ordered: seq<Range>, i: nat, begin: int, end: int, total: int, closed: set<int>) {
    && 1 <= i <= |ordered| && begin <= end && begin <= ordered[i - 1].begin
    && Union(ordered[..i]) == closed + Tokens(Range(begin, end))
    && |closed| == total && forall x :: x in closed ==> x < begin
  }

  lemma SweepStart(ordered: seq<Range>)
    requires ordered != [] && ordered[0].begin <= ordered[0].end
    ensures Swept(ordered, 1, ordered[0].begin, ordered[0].end, 0, {})
  {
    assert ordered[..1] == [ordered[0]] && ordered[..1][..0] == [] && Union([]) == {};
    assert {} + Tokens(ordered[0]) == Tokens(ordered[0]);
  }

  lemma SweepNext(ordered: seq<Range>, i: nat, begin: int, end: int, total: int, closed: set<int>)
    requires i < |ordered| && Sorted(ordered) && ordered[i].begin <= ordered[i].end
    requires Swept(ordered, i, begin, end, total, closed)
    ensures var next := ordered[i];
            if next.begin <= end + 1
            then Swept(ordered, i + 1, begin, if end < next.end then next.end else end, total, closed)
            else Swept(ordered, i + 1, next.begin, next.end, total + end - begin + 1,
                       closed + Tokens(Range(begin, end)))
  {
    var next := ordered[i];
    assert Ordered(ordered[i - 1], next);
    UnionNext(ordered, i);
    hide Union, Tokens;
    if next.begin <= end + 1 {
      TokensJoin(Range(begin, end), next);
      var joined := Tokens(Range(begin, if end < next.end then next.end else end));
      assert closed + Tokens(Range(begin, end)) + Tokens(next) == closed + joined;
    } else {
      assert Range(next.begin, next.end) == next;
      RunCloses(begin, end, next.begin, closed);
    }
  }

  lemma UnionNext(ordered: seq<Range>, i: nat)
    requires i < |ordered|
    ensures Union(ordered[..i + 1]) == Union(ordered[..i]) + Tokens(ordered[i])
  {
    assert ordered[..i + 1][..i] == ordered[..i];
  }

  /** A run that ends before the next one begins adds all its tokens. */
  lemma RunCloses(begin: int, end: int, next: int, closed: set<int>)
    requires begin <= end < next && forall x :: x in closed ==> x < begin
    ensures var after := closed + Tokens(Range(begin, end));
            |after| == |closed| + end - begin + 1 && forall x :: x in after ==> x < next
  {
    TokenCount(Range(begin, end));
    TokensWithin(Range(begin, end));
    hide Tokens;
    assert closed !! Tokens(Range(begin, end));
  }

  lemma TokensWithin(r: Range)
    ensures forall x :: x in Tokens(r) <==> r.begin <= x <= r.end
  {
  }

  /** Two ranges that overlap or touch make one. */
  lemma TokensJoin(a: Range, b: Range)
    requires a.begin <= b.begin <= a.end + 1
    ensures Tokens(Range(a.begin, if a.end < b.end then b.end else a.end)) == Tokens(a) + Tokens(b)
  {
    TokensWithin(a);
    TokensWithin(b);
    var joined := Range(a.begin, if a.end < b.end then b.end else a.end);
    TokensWithin(joined);
    hide Tokens;
    assert forall x :: x in Tokens(joined) <==> x in Tokens(a) || x in Tokens(b);
  }

  lemma SweepEnd(ordered: seq<Range>, begin: int, end: int, total: int, closed: set<int>)
    requires Swept(ordered, |ordered|, begin, end, total, closed)
    ensures |Union(ordered)| == total + end - begin + 1
  {
    assert ordered[..|ordered|] == ordered;
    TokenCount(Range(begin, end));
    TokensWithin(Range(begin, end));
    hide Union, Tokens;
    assert closed !! Tokens(Range(begin, end));
  }
}
