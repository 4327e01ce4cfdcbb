/** The error that is shown: the first by its pointer, items in numeric order. */
module FirstErrors {
  import opened Outcomes
  import opened Numerals
  import opened SchemaCheck
  import opened StringOrder
  import MemberScanner

  /** How a reference token is ordered: numbers before names, numbers by value. */
  datatype Rank = Item(n: nat) | Name(s: string)

  function RankOf(token: string): Rank {
    if token != "" && AllDigits(token) then Item(DigitsValue(token)) else Name(MemberScanner.EscapeToken(token))
  }

  function Ranks(pointer: Pointer): seq<Rank> {
    seq(|pointer|, i requires 0 <= i < |pointer| => RankOf(pointer[i]))
  }

  predicate Lower(a: Rank, b: Rank) {
    match (a, b)
    case (Item(m), Item(n)) => m < n
    case (Item(_), Name(_)) => true
    case (Name(_), Item(_)) => false
    case (Name(s), Name(t)) => Before(s, t)
  }

  /** In the order of pointers, parents come before their parts. */
  predicate Earlier(a: seq<Rank>, b: seq<Rank>) {
    b != [] && (a == [] || Lower(a[0], b[0]) || (a[0] == b[0] && Earlier(a[1..], b[1..])))
  }

  lemma LowerOrders(a: Rank, b: Rank, c: Rank)
    ensures a == b || Lower(a, b) || Lower(b, a)
    ensures !(Lower(a, b) && Lower(b, a)) && !Lower(a, a)
    ensures Lower(a, b) && Lower(b, c) ==> Lower(a, c)
  {
    if a.Name? && b.Name? {
      BeforeTotal(a.s, b.s);
    }
    if a.Name? {
      BeforeTotal(a.s, a.s);
    }
    if a.Name? && b.Name? && c.Name? && Before(a.s, b.s) && Before(b.s, c.s) {
      BeforeTransitive(a.s, b.s, c.s);
    }
  }

  lemma {:induction false} EarlierOrders(a: seq<Rank>, b: seq<Rank>, c: seq<Rank>)
    ensures a == b || Earlier(a, b) || Earlier(b, a)
    ensures Earlier(a, b) && Earlier(b, c) ==> Earlier(a, c)
  {
    if a != [] && b != [] {
      hide Lower;
      LowerOrders(a[0], b[0], if c == [] then a[0] else c[0]);
      if c != [] {
        LowerOrders(b[0], c[0], a[0]);
        EarlierOrders(a[1..], b[1..], c[1..]);
      } else {
        EarlierOrders(a[1..], b[1..], []);
      }
      assert a == [a[0]] + a[1..] && b == [b[0]] + b[1..];
    }
  }

  /** No error has an earlier pointer, and none before it has the same. */
  ghost predicate IsFirst(errors: seq<Error>, i: nat)
    requires i < |errors|
  {
    && (forall j :: 0 <= j < |errors| ==> !Earlier(Ranks(errors[j].pointer), Ranks(errors[i].pointer)))
    && (forall j :: 0 <= j < i ==> Earlier(Ranks(errors[i].pointer), Ranks(errors[j].pointer)))
  }

  /** The first listed of the errors with the earliest pointer. */
  method FirstError(errors: seq<Error>) returns (first: Option<Error>)
    ensures first.None? <==> errors == []
    ensures first.Some? ==> exists i :: 0 <= i < |errors| && errors[i] == first.value && IsFirst(errors, i)
  {
    if errors == [] {
      return None;
    }
    var best, i := 0, 1;
    EarlierOrders(Ranks(errors[0].pointer), Ranks(errors[0].pointer), []);
    NotEarlier(Ranks(errors[0].pointer));
    hide Earlier, Ranks;
    while i < |errors|
      invariant 0 <= best < i <= |errors|
      invariant forall j :: 0 <= j < i ==> !Earlier(Ranks(errors[j].pointer), Ranks(errors[best].pointer))
      invariant forall j :: 0 <= j < best ==> Earlier(Ranks(errors[best].pointer), Ranks(errors[j].pointer))
    {
      var key := Ranks(errors[i].pointer);
      if Earlier(key, Ranks(errors[best].pointer)) {
        forall j | 0 <= j < i
          ensures Earlier(key, Ranks(errors[j].pointer)) && !Earlier(Ranks(errors[j].pointer), key)
        {
          EarlierOrders(Ranks(errors[best].pointer), Ranks(errors[j].pointer), []);
          EarlierOrders(key, Ranks(errors[best].pointer), Ranks(errors[j].pointer));
          EarlierOrders(Ranks(errors[j].pointer), key, Ranks(errors[best].pointer));
        }
        NotEarlier(key);
        best := i;
      }
      i := i + 1;
    }
    assert IsFirst(errors, best);
    return Some(errors[best]);
  }

  lemma {:induction false} NotEarlier(a: seq<Rank>)
    ensures !Earlier(a, a)
  {
    if a != [] {
      LowerOrders(a[0], a[0], a[0]);
      NotEarlier(a[1..]);
    }
  }

  lemma RanksOf(token: string, rest: Pointer)
    ensures Ranks([token] + rest) != [] && Ranks([token] + rest)[0] == RankOf(token)
    ensures Ranks([token] + rest)[1..] == Ranks(rest)
  {
    hide RankOf;
  }

  /** Pointers that begin alike are ordered by what follows. */
  lemma {:induction false} SameStart(at: Pointer, a: Pointer, b: Pointer)
    ensures Earlier(Ranks(at + a), Ranks(at + b)) <==> Earlier(Ranks(a), Ranks(b))
    decreases |at|
  {
    hide RankOf, Ranks, Lower;
    if at == [] {
      assert at + a == a && at + b == b;
    } else {
      RanksOf(at[0], at[1..] + a);
      RanksOf(at[0], at[1..] + b);
      assert at + a == [at[0]] + (at[1..] + a) && at + b == [at[0]] + (at[1..] + b);
      LowerOrders(RankOf(at[0]), RankOf(at[0]), RankOf(at[0]));
      SameStart(at[1..], a, b);
    }
  }

  /** An error at a value comes before those at its parts, and items come in numeric order. */
  lemma PartsComeLater(at: Pointer, token: string, rest: Pointer, i: nat, j: nat)
    ensures Earlier(Ranks(at), Ranks(at + ([token] + rest)))
    ensures Earlier(Ranks(at + [Digits(i)]), Ranks(at + ([Digits(j)] + rest))) <==> i < j || (i == j && rest != [])
  {
    SameStart(at, [], [token] + rest);
    SameStart(at, [Digits(i)], [Digits(j)] + rest);
    assert at + [] == at;
    RankOfDigits(i);
    RankOfDigits(j);
    RanksOf(Digits(i), []);
    RanksOf(Digits(j), rest);
    assert [Digits(i)] + [] == [Digits(i)];
    hide Digits, RankOf;
  }

  lemma RankOfDigits(i: nat)
    ensures RankOf(Digits(i)) == Item(i)
  {
    DigitsReadBack(i);
    hide Digits, DigitsValue;
  }
}
