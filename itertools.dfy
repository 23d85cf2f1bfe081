/**
 * `itertools.product(*lists)`: the cartesian product of a list of value lists,
 * in lexicographic order of positions, the last list varying fastest.
 */
module Itertools {

  /** Every tail prefixed by every head: one block of `|tails|` combinations per head. */
  function Prefixed<V>(heads: seq<V>, tails: seq<seq<V>>): seq<seq<V>>
  {
    if heads == [] then []
    else seq(|tails|, j requires 0 <= j < |tails| => [heads[0]] + tails[j]) + Prefixed(heads[1..], tails)
  }

  /** The combinations produced by `itertools.product(*lists)`, in its order. */
  function Product<V>(lists: seq<seq<V>>): seq<seq<V>>
  {
    if lists == [] then [[]] else Prefixed(lists[0], Product(lists[1..]))
  }

  /** The product of the lists' lengths. */
  function LengthProduct<V>(lists: seq<seq<V>>): nat
  {
    if lists == [] then 1 else |lists[0]| * LengthProduct(lists[1..])
  }

  /** A choice of one position in each list. */
  predicate ValidChoice<V>(lists: seq<seq<V>>, pos: seq<nat>)
  {
    |pos| == |lists| && forall m :: 0 <= m < |pos| ==> pos[m] < |lists[m]|
  }

  /** The combination picked by a choice of positions. */
  function Pick<V>(lists: seq<seq<V>>, pos: seq<nat>): seq<V>
    requires ValidChoice(lists, pos)
  {
    seq(|lists|, m requires 0 <= m < |lists| => lists[m][pos[m]])
  }

  /** The mixed-radix number of a choice: the last list has weight 1. */
  function Rank<V>(lists: seq<seq<V>>, pos: seq<nat>): nat
    requires ValidChoice(lists, pos)
  {
    if lists == [] then 0 else pos[0] * LengthProduct(lists[1..]) + Rank(lists[1..], pos[1..])
  }

  lemma {:induction false} PrefixedLength<V>(heads: seq<V>, tails: seq<seq<V>>)
    ensures |Prefixed(heads, tails)| == |heads| * |tails|
  {
    if heads != [] {
      PrefixedLength(heads[1..], tails);
      assert |heads| * |tails| == |tails| + (|heads| - 1) * |tails|;
    }
  }

  lemma {:induction false} PrefixedAt<V>(heads: seq<V>, tails: seq<seq<V>>, x: nat, j: nat)
    requires x < |heads| && j < |tails|
    ensures x * |tails| + j < |Prefixed(heads, tails)|
    ensures Prefixed(heads, tails)[x * |tails| + j] == [heads[x]] + tails[j]
  {
    PrefixedLength(heads, tails);
    assert x * |tails| + j < |heads| * |tails| by {
      assert (|heads| - x) * |tails| >= |tails| by {
        MulAtLeastOne(|heads| - x, |tails|);
      }
      assert |heads| * |tails| == x * |tails| + (|heads| - x) * |tails|;
    }
    if x > 0 {
      PrefixedAt(heads[1..], tails, x - 1, j);
      assert x * |tails| + j == |tails| + ((x - 1) * |tails| + j);
    }
  }

  lemma MulAtLeastOne(a: nat, b: nat)
    requires a >= 1
    ensures a * b >= b
  {
    assert a * b == b + (a - 1) * b;
  }

  lemma {:induction false} PrefixedMember<V>(heads: seq<V>, tails: seq<seq<V>>, c: seq<V>)
    ensures c in Prefixed(heads, tails) <==> |c| >= 1 && c[0] in heads && c[1..] in tails
  {
    if heads != [] {
      PrefixedMember(heads[1..], tails, c);
      var block := seq(|tails|, j requires 0 <= j < |tails| => [heads[0]] + tails[j]);
      if |c| >= 1 && c[0] == heads[0] && c[1..] in tails {
        var j :| 0 <= j < |tails| && tails[j] == c[1..];
        assert block[j] == c;
      }
      if c in block {
        var j :| 0 <= j < |block| && block[j] == c;
        assert c[1..] == tails[j];
      }
    }
  }

  /** There are as many combinations as the product of the list lengths. */
  lemma {:induction false} ProductLength<V>(lists: seq<seq<V>>)
    ensures |Product(lists)| == LengthProduct(lists)
  {
    if lists != [] {
      ProductLength(lists[1..]);
      PrefixedLength(lists[0], Product(lists[1..]));
    }
  }

  /** Combination number `Rank(pos)` picks position `pos[m]` of every list `m`. */
  lemma {:induction false} ProductAtRank<V>(lists: seq<seq<V>>, pos: seq<nat>)
    requires ValidChoice(lists, pos)
    ensures Rank(lists, pos) < |Product(lists)|
    ensures Product(lists)[Rank(lists, pos)] == Pick(lists, pos)
  {
    if lists != [] {
      var rest := Product(lists[1..]);
      ProductAtRank(lists[1..], pos[1..]);
      ProductLength(lists[1..]);
      PrefixedAt(lists[0], rest, pos[0], Rank(lists[1..], pos[1..]));
      assert Pick(lists, pos) == [lists[0][pos[0]]] + Pick(lists[1..], pos[1..]);
    }
  }

  /** A sequence is a combination exactly when it takes one value from each list. */
  lemma {:induction false} ProductMember<V>(lists: seq<seq<V>>, c: seq<V>)
    ensures c in Product(lists) <==> |c| == |lists| && forall m :: 0 <= m < |c| ==> c[m] in lists[m]
  {
    if lists == [] {
    } else {
      PrefixedMember(lists[0], Product(lists[1..]), c);
      if |c| >= 1 {
        ProductMember(lists[1..], c[1..]);
        if |c| == |lists| && forall m :: 0 <= m < |c| ==> c[m] in lists[m] {
          assert forall m :: 0 <= m < |c[1..]| ==> c[1..][m] == c[m + 1];
        }
        if c[0] in lists[0] && c[1..] in Product(lists[1..]) {
          forall m | 0 <= m < |c| ensures c[m] in lists[m] {
            if m > 0 { assert c[m] == c[1..][m - 1]; }
          }
        }
      }
    }
  }

  /** There are no combinations exactly when some list is empty. */
  lemma {:induction false} ProductEmpty<V>(lists: seq<seq<V>>)
    ensures Product(lists) == [] <==> exists m :: 0 <= m < |lists| && lists[m] == []
  {
    ProductLength(lists);
    if lists != [] {
      ProductEmpty(lists[1..]);
      ProductLength(lists[1..]);
      if lists[0] != [] && LengthProduct(lists[1..]) != 0 {
        MulAtLeastOne(|lists[0]|, LengthProduct(lists[1..]));
      }
      if exists m :: 0 <= m < |lists| && lists[m] == [] {
        var m :| 0 <= m < |lists| && lists[m] == [];
        if m > 0 { assert lists[1..][m - 1] == []; }
      }
      if exists m :: 0 <= m < |lists[1..]| && lists[1..][m] == [] {
        var m :| 0 <= m < |lists[1..]| && lists[1..][m] == [];
        assert lists[m + 1] == [];
      }
    }
  }
}
