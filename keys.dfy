/** Listing the keys of a table in ascending order. Repository queries return
    rows as a list; the model fixes that list's order to ascending primary key. */
module Keys {

  predicate Increasing(s: seq<int>)
  {
    forall i, j :: 0 <= i < j < |s| ==> s[i] < s[j]
  }

  /** The members of `keys` that lie in `[0, bound)`, in ascending order. */
  function KeysBelow(keys: set<int>, bound: int): (r: seq<int>)
    ensures Increasing(r)
    ensures forall x :: x in r <==> x in keys && 0 <= x < bound
    ensures forall i :: 0 <= i < |r| ==> 0 <= r[i] < bound
    decreases bound
  {
    if bound <= 0 then []
    else
      var prefix := KeysBelow(keys, bound - 1);
      if bound - 1 in keys then prefix + [bound - 1] else prefix
  }

  /** Two ascending sequences with the same members are the same sequence. */
  lemma {:induction false} IncreasingUnique(a: seq<int>, b: seq<int>)
    requires Increasing(a) && Increasing(b)
    requires forall x :: x in a <==> x in b
    ensures a == b
  {
    if a != [] {
      assert a[0] in a;
    }
    if b != [] {
      assert b[0] in b;
    }
    if a != [] {
      assert a[0] == b[0];
      forall x
        ensures x in a[1..] <==> x in b[1..]
      {
        if x in a[1..] {
          var i :| 1 <= i < |a| && a[i] == x;
          assert x in b;
          assert x != b[0];
        }
        if x in b[1..] {
          var j :| 1 <= j < |b| && b[j] == x;
          assert x in a;
          assert x != a[0];
        }
      }
      IncreasingUnique(a[1..], b[1..]);
    }
  }

  /** The keys of a contiguous block `[lo, lo + n)`, listed below its end,
      are the block itself in order. */
  lemma KeysBelowOfBlock(keys: set<int>, lo: int, n: nat)
    requires 0 <= lo
    requires forall x :: x in keys <==> lo <= x < lo + n
    ensures KeysBelow(keys, lo + n) == seq(n, i requires 0 <= i < n => lo + i)
  {
    var block := seq(n, i requires 0 <= i < n => lo + i);
    var r := KeysBelow(keys, lo + n);
    forall x
      ensures x in r <==> x in block
    {
      if lo <= x < lo + n {
        assert block[x - lo] == x;
      }
    }
    IncreasingUnique(r, block);
  }
}
