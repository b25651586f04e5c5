/** Redis sorted sets as kept by ZADD GT: entries in ascending (score, member) order, one
    entry for each member. */
module SortedSets {
  import opened Common

  datatype Entry = Entry(score: int, member: string)

  predicate StringLess(a: string, b: string) {
    if b == [] then false
    else if a == [] then true
    else a[0] < b[0] || (a[0] == b[0] && StringLess(a[1..], b[1..]))
  }

  lemma {:induction false} StringLessTrichotomy(a: string, b: string)
    ensures StringLess(a, b) || a == b || StringLess(b, a)
    ensures !(StringLess(a, b) && StringLess(b, a))
    ensures !StringLess(a, a)
    decreases |a|
  {
    if a != [] && b != [] {
      StringLessTrichotomy(a[1..], b[1..]);
      assert a == [a[0]] + a[1..] && b == [b[0]] + b[1..];
    } else if a != [] {
      StringLessTrichotomy(a[1..], []);
    }
  }

  lemma {:induction false} StringLessTransitive(a: string, b: string, c: string)
    requires StringLess(a, b) && StringLess(b, c)
    ensures StringLess(a, c)
    decreases |a|
  {
    if a != [] && a[0] == b[0] && b[0] == c[0] {
      StringLessTransitive(a[1..], b[1..], c[1..]);
    }
  }

  predicate Before(x: Entry, y: Entry) {
    x.score < y.score || (x.score == y.score && StringLess(x.member, y.member))
  }

  lemma BeforeTotal(x: Entry, y: Entry)
    ensures Before(x, y) || x == y || Before(y, x)
    ensures !(Before(x, y) && Before(y, x))
    ensures !Before(x, x)
  {
    StringLessTrichotomy(x.member, y.member);
    StringLessTrichotomy(x.member, x.member);
  }

  lemma BeforeTransitive(x: Entry, y: Entry, z: Entry)
    requires Before(x, y) && Before(y, z)
    ensures Before(x, z)
  {
    if x.score == y.score == z.score {
      StringLessTransitive(x.member, y.member, z.member);
    }
  }

  ghost predicate Ordered(z: seq<Entry>) {
    forall i, j :: 0 <= i < j < |z| ==> Before(z[i], z[j])
  }

  /** At most one entry for each member. */
  ghost predicate Functional(z: seq<Entry>) {
    forall x, y :: x in z && y in z && x.member == y.member ==> x == y
  }

  ghost predicate Valid(z: seq<Entry>) {
    Ordered(z) && Functional(z)
  }

  ghost predicate Has(z: seq<Entry>, m: string) {
    exists x :: x in z && x.member == m
  }

  function Find(z: seq<Entry>, m: string): (r: Option<int>)
    ensures r.Some? ==> Entry(r.value, m) in z
    ensures r.None? ==> forall x :: x in z ==> x.member != m
  {
    if z == [] then None
    else if z[0].member == m then Some(z[0].score)
    else Find(z[1..], m)
  }

  function Insert(z: seq<Entry>, e: Entry): (r: seq<Entry>)
    ensures forall x :: x in r <==> x == e || x in z
    ensures |r| == |z| + 1
  {
    if z == [] then [e]
    else if Before(e, z[0]) then [e] + z
    else [z[0]] + Insert(z[1..], e)
  }

  function Remove(z: seq<Entry>, m: string): (r: seq<Entry>)
    ensures forall x :: x in r <==> x in z && x.member != m
  {
    if z == [] then []
    else if z[0].member == m then Remove(z[1..], m)
    else [z[0]] + Remove(z[1..], m)
  }

  /** ZADD key GT score member. */
  function AddGT(z: seq<Entry>, m: string, s: int): seq<Entry> {
    match Find(z, m)
    case None => Insert(z, Entry(s, m))
    case Some(held) => if held < s then Insert(Remove(z, m), Entry(s, m)) else z
  }

  lemma {:induction false} OrderedCons(e: Entry, z: seq<Entry>)
    requires Ordered(z)
    requires forall x :: x in z ==> Before(e, x)
    ensures Ordered([e] + z)
  {
    var r := [e] + z;
    forall i, j | 0 <= i < j < |r| ensures Before(r[i], r[j]) {
      assert r[j] == z[j - 1];
      if i > 0 {
        assert r[i] == z[i - 1];
      }
    }
  }

  lemma OrderedTail(z: seq<Entry>)
    requires Ordered(z) && z != []
    ensures Ordered(z[1..])
    ensures forall x :: x in z[1..] ==> Before(z[0], x)
  {
    forall i, j | 0 <= i < j < |z[1..]| ensures Before(z[1..][i], z[1..][j]) {
      assert z[1..][i] == z[i + 1] && z[1..][j] == z[j + 1];
    }
  }

  lemma {:induction false} InsertOrdered(z: seq<Entry>, e: Entry)
    requires Ordered(z) && e !in z
    ensures Ordered(Insert(z, e))
    decreases |z|
  {
    if z != [] {
      OrderedTail(z);
      BeforeTotal(e, z[0]);
      if Before(e, z[0]) {
        forall x | x in z ensures Before(e, x) {
          if x != z[0] {
            assert x in z[1..];
            BeforeTransitive(e, z[0], x);
          }
        }
        OrderedCons(e, z);
      } else {
        InsertOrdered(z[1..], e);
        OrderedCons(z[0], Insert(z[1..], e));
      }
    }
  }

  lemma {:induction false} RemoveOrdered(z: seq<Entry>, m: string)
    requires Ordered(z)
    ensures Ordered(Remove(z, m))
    decreases |z|
  {
    if z != [] {
      OrderedTail(z);
      RemoveOrdered(z[1..], m);
      if z[0].member != m {
        OrderedCons(z[0], Remove(z[1..], m));
      }
    }
  }

  /** The score a member has after ZADD GT. */
  function ScoreAfter(z: seq<Entry>, m: string, s: int): int {
    match Find(z, m)
    case None => s
    case Some(held) => if held < s then s else held
  }

  /** ZADD GT keeps the order, leaves every other member alone and gives `m` the larger of
      its old score and the new one. */
  lemma AddGTMeaning(z: seq<Entry>, m: string, s: int)
    requires Valid(z)
    ensures Valid(AddGT(z, m, s))
    ensures forall x :: x in AddGT(z, m, s) <==>
              if x.member == m then x.score == ScoreAfter(z, m, s) else x in z
  {
    RemoveOrdered(z, m);
    match Find(z, m) {
      case None =>
        InsertOrdered(z, Entry(s, m));
      case Some(held) =>
        if held < s {
          InsertOrdered(Remove(z, m), Entry(s, m));
        }
    }
  }

  /** A run of submissions to one sorted set. */
  function AddAll(subs: seq<Entry>): seq<Entry> {
    if subs == [] then []
    else
      var last := subs[|subs| - 1];
      AddGT(AddAll(subs[..|subs| - 1]), last.member, last.score)
  }

  /** `x` is the highest submission of its member. */
  ghost predicate Highest(subs: seq<Entry>, x: Entry) {
    x in subs && forall y :: y in subs && y.member == x.member ==> y.score <= x.score
  }

  /** The set holds exactly the highest submission of every member. */
  lemma {:induction false} AddAllKeepsHighest(subs: seq<Entry>)
    ensures Valid(AddAll(subs))
    ensures forall x :: x in AddAll(subs) <==> Highest(subs, x)
  {
    if subs != [] {
      var init, last := subs[..|subs| - 1], subs[|subs| - 1];
      assert subs == init + [last];
      AddAllKeepsHighest(init);
      var z := AddAll(init);
      AddGTMeaning(z, last.member, last.score);
      forall x ensures x in AddAll(subs) <==> Highest(subs, x) {
        if x.member == last.member {
          match Find(z, last.member) {
            case None =>
              if y :| y in init && y.member == x.member {
                MemberHasHighest(init, y);
              }
            case Some(held) =>
              assert Highest(init, Entry(held, last.member));
          }
        } else {
          assert Highest(subs, x) <==> Highest(init, x);
        }
      }
    }
  }

  lemma {:induction false} MemberHasHighest(subs: seq<Entry>, y: Entry)
    requires y in subs
    ensures exists x :: Highest(subs, x) && x.member == y.member
  {
    var init, last := subs[..|subs| - 1], subs[|subs| - 1];
    assert subs == init + [last];
    if x :| x in init && x.member == y.member {
      MemberHasHighest(init, x);
      var best :| Highest(init, best) && best.member == y.member;
      assert Highest(subs, if last.member == y.member && best.score < last.score then last else best);
    } else {
      assert Highest(subs, last);
    }
  }

  /** Two ordered sequences with the same entries are the same sequence. */
  lemma {:induction false} OrderedIsUnique(a: seq<Entry>, b: seq<Entry>)
    requires Ordered(a) && Ordered(b)
    requires forall x :: x in a <==> x in b
    ensures a == b
    decreases |a|
  {
    if a == [] {
      assert forall i :: 0 <= i < |b| ==> b[i] !in b;
    } else {
      assert a[0] in b;
      OrderedTail(a);
      OrderedTail(b);
      assert b[0] in a;
      BeforeTotal(a[0], b[0]);
      assert a[0] == b[0];
      forall x ensures x in a[1..] <==> x in b[1..] {
        BeforeTotal(a[0], x);
        assert x in a <==> x == a[0] || x in a[1..];
        assert x in b <==> x == b[0] || x in b[1..];
      }
      OrderedIsUnique(a[1..], b[1..]);
    }
  }

  /** Arrival order does not matter: submissions that differ only in order build the same set. */
  lemma ArrivalOrderIrrelevant(subs: seq<Entry>, other: seq<Entry>)
    requires multiset(subs) == multiset(other)
    ensures AddAll(subs) == AddAll(other)
  {
    AddAllKeepsHighest(subs);
    AddAllKeepsHighest(other);
    forall x ensures x in subs <==> x in other {
      assert x in subs <==> x in multiset(subs);
      assert x in other <==> x in multiset(other);
    }
    OrderedIsUnique(AddAll(subs), AddAll(other));
  }
}
