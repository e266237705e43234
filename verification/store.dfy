/** The expense list operations of the app screen: append a new record,
    replace by id in place (`Array.prototype.map`), remove by id
    (`Array.prototype.filter`), and the running total (`reduce`). */
module ExpenseStore {
  import opened Records

  /** `[...expenses, {...draft, id: newId}]`. */
  function Append(xs: seq<Expense>, d: Draft, newId: Id): (r: seq<Expense>)
    ensures |r| == |xs| + 1
    ensures r[..|xs|] == xs
    ensures r[|xs|] == Stamp(d, newId)
  {
    xs + [Stamp(d, newId)]
  }

  /** An unused id keeps the ids unique, and adds exactly that id. */
  lemma AppendKeepsIdsUnique(xs: seq<Expense>, d: Draft, newId: Id)
    requires UniqueIds(xs)
    requires newId !in Ids(xs)
    ensures UniqueIds(Append(xs, d, newId))
    ensures Ids(Append(xs, d, newId)) == Ids(xs) + {newId}
  {
    var r := Append(xs, d, newId);
    forall i, j | 0 <= i < j < |r|
      ensures r[i].id != r[j].id
    {
      if j == |xs| {
        assert r[i] == xs[i];
      }
    }
    forall x | x in Ids(r)
      ensures x in Ids(xs) + {newId}
    {
      var i :| 0 <= i < |r| && r[i].id == x;
      if i < |xs| {
        assert r[i] == xs[i];
      }
    }
    forall x | x in Ids(xs)
      ensures x in Ids(r)
    {
      var i :| 0 <= i < |xs| && xs[i].id == x;
      assert r[i] == xs[i];
    }
    assert r[|xs|].id == newId;
  }

  /** The entry update applied to one position: the updated record where
      the ids agree, the old entry otherwise. */
  function ReplaceOne(x: Expense, u: Expense): Expense
  {
    if x.id == u.id then u else x
  }

  /** `expenses.map(e => e.id === u.id ? u : e)`. */
  function Replace(xs: seq<Expense>, u: Expense): (r: seq<Expense>)
    ensures |r| == |xs|
    ensures forall i :: 0 <= i < |xs| ==> r[i] == ReplaceOne(xs[i], u)
    ensures forall i :: 0 <= i < |xs| ==> r[i].id == xs[i].id
  {
    if xs == [] then [] else [ReplaceOne(xs[0], u)] + Replace(xs[1..], u)
  }

  /** With unique ids, an update of a present id overwrites exactly the
      position holding that id. */
  lemma ReplaceAt(xs: seq<Expense>, u: Expense, k: int)
    requires UniqueIds(xs)
    requires 0 <= k < |xs| && xs[k].id == u.id
    ensures Replace(xs, u) == xs[k := u]
  {
    var r := Replace(xs, u);
    forall i | 0 <= i < |xs|
      ensures r[i] == xs[k := u][i]
    {
      if i != k {
        assert xs[i].id != xs[k].id;
      }
    }
  }

  /** An update whose id is not in the list changes nothing. */
  lemma ReplaceAbsent(xs: seq<Expense>, u: Expense)
    requires u.id !in Ids(xs)
    ensures Replace(xs, u) == xs
  {
    var r := Replace(xs, u);
    forall i | 0 <= i < |xs|
      ensures r[i] == xs[i]
    {
      assert xs[i].id in Ids(xs);
    }
  }

  /** An update never changes the set of ids, so uniqueness is kept. */
  lemma ReplaceKeepsIdsUnique(xs: seq<Expense>, u: Expense)
    requires UniqueIds(xs)
    ensures UniqueIds(Replace(xs, u))
    ensures Ids(Replace(xs, u)) == Ids(xs)
  {
    var r := Replace(xs, u);
    forall x | x in Ids(r)
      ensures x in Ids(xs)
    {
      var i :| 0 <= i < |r| && r[i].id == x;
      assert xs[i].id == x;
    }
    forall x | x in Ids(xs)
      ensures x in Ids(r)
    {
      var i :| 0 <= i < |xs| && xs[i].id == x;
      assert r[i].id == x;
    }
  }

  /** `expenses.filter(e => e.id !== id)`. */
  function Remove(xs: seq<Expense>, id: Id): (r: seq<Expense>)
    ensures |r| <= |xs|
    ensures forall x :: x in r <==> x in xs && x.id != id
  {
    if xs == [] then []
    else (if xs[0].id == id then [] else [xs[0]]) + Remove(xs[1..], id)
  }

  /** Removal distributes over concatenation: the survivors keep their
      relative order. */
  lemma {:induction false} RemoveConcat(a: seq<Expense>, b: seq<Expense>, id: Id)
    ensures Remove(a + b, id) == Remove(a, id) + Remove(b, id)
  {
    if a == [] {
      assert a + b == b;
    } else {
      assert (a + b)[0] == a[0];
      assert (a + b)[1..] == a[1..] + b;
      RemoveConcat(a[1..], b, id);
    }
  }

  /** Removing an id that is not present leaves the list unchanged. */
  lemma {:induction false} RemoveAbsent(xs: seq<Expense>, id: Id)
    requires id !in Ids(xs)
    ensures Remove(xs, id) == xs
  {
    if xs != [] {
      assert xs[0].id in Ids(xs);
      assert Ids(xs[1..]) <= Ids(xs) by {
        forall x | x in Ids(xs[1..])
          ensures x in Ids(xs)
        {
          var i :| 0 <= i < |xs[1..]| && xs[1..][i].id == x;
          assert xs[i + 1].id == x;
        }
      }
      RemoveAbsent(xs[1..], id);
      assert [xs[0]] + xs[1..] == xs;
    }
  }

  /** What survives a removal no longer carries the removed id. */
  lemma RemovedIdsGone(xs: seq<Expense>, id: Id)
    ensures Ids(Remove(xs, id)) == Ids(xs) - {id}
  {
    var r := Remove(xs, id);
    forall x | x in Ids(r)
      ensures x in Ids(xs) - {id}
    {
      var i :| 0 <= i < |r| && r[i].id == x;
      assert r[i] in r;
    }
    forall x | x in Ids(xs) - {id}
      ensures x in Ids(r)
    {
      var i :| 0 <= i < |xs| && xs[i].id == x;
      assert xs[i] in r;
    }
  }

  /** Deleting twice is deleting once. */
  lemma RemoveIdempotent(xs: seq<Expense>, id: Id)
    ensures Remove(Remove(xs, id), id) == Remove(xs, id)
  {
    RemovedIdsGone(xs, id);
    RemoveAbsent(Remove(xs, id), id);
  }

  /** With unique ids, deleting the id at position `k` removes exactly
      that entry and keeps the rest in order. */
  lemma RemoveAt(xs: seq<Expense>, k: int)
    requires UniqueIds(xs)
    requires 0 <= k < |xs|
    ensures Remove(xs, xs[k].id) == xs[..k] + xs[k + 1..]
    ensures |Remove(xs, xs[k].id)| == |xs| - 1
  {
    SplitAt(xs, k);
    OnlyAt(xs, k);
    RemoveSplit(xs[..k], xs[k], xs[k + 1..]);
  }

  /** With unique ids, the id at position `k` occurs nowhere else. */
  lemma OnlyAt(xs: seq<Expense>, k: int)
    requires UniqueIds(xs)
    requires 0 <= k < |xs|
    ensures xs[k].id !in Ids(xs[..k]) && xs[k].id !in Ids(xs[k + 1..])
  {
    var before, after := xs[..k], xs[k + 1..];
    forall i | 0 <= i < |before|
      ensures before[i].id != xs[k].id
    {
      assert before[i] == xs[i];
    }
    forall i | 0 <= i < |after|
      ensures after[i].id != xs[k].id
    {
      assert after[i] == xs[k + 1 + i];
    }
  }

  /** Removing the id of a record that occurs only once, between `before`
      and `after`, leaves `before + after`. */
  lemma RemoveSplit(before: seq<Expense>, x: Expense, after: seq<Expense>)
    requires x.id !in Ids(before) && x.id !in Ids(after)
    ensures Remove(before + [x] + after, x.id) == before + after
  {
    var id := x.id;
    calc {
      Remove(before + [x] + after, id);
      { RemoveConcat(before + [x], after, id); }
      Remove(before + [x], id) + Remove(after, id);
      { RemoveConcat(before, [x], id); RemoveSelf(x); }
      Remove(before, id) + Remove(after, id);
      { RemoveAbsent(before, id); RemoveAbsent(after, id); }
      before + after;
    }
  }

  /** A record alone is removed by its own id. */
  lemma RemoveSelf(x: Expense)
    ensures Remove([x], x.id) == []
  {
    assert [x][1..] == [];
  }

  /** The tail of a list with unique ids has unique ids and lacks the
      head's id. */
  lemma UniqueTail(xs: seq<Expense>)
    requires UniqueIds(xs) && xs != []
    ensures UniqueIds(xs[1..]) && xs[0].id !in Ids(xs[1..])
  {
    var tail := xs[1..];
    forall i, j | 0 <= i < j < |tail|
      ensures tail[i].id != tail[j].id
    {
      assert tail[i] == xs[i + 1] && tail[j] == xs[j + 1];
    }
    forall i | 0 <= i < |tail|
      ensures tail[i].id != xs[0].id
    {
      assert tail[i] == xs[i + 1];
    }
  }

  /** Prepending a record with a new id keeps ids unique. */
  lemma UniqueCons(x: Expense, ys: seq<Expense>)
    requires UniqueIds(ys) && x.id !in Ids(ys)
    ensures UniqueIds([x] + ys)
  {
    var r := [x] + ys;
    forall i, j | 0 <= i < j < |r|
      ensures r[i].id != r[j].id
    {
      assert r[j] == ys[j - 1];
      if i > 0 {
        assert r[i] == ys[i - 1];
      }
    }
  }

  /** Removal keeps ids unique. */
  lemma {:induction false} RemoveKeepsIdsUnique(xs: seq<Expense>, id: Id)
    requires UniqueIds(xs)
    ensures UniqueIds(Remove(xs, id))
  {
    if xs != [] {
      var tail := xs[1..];
      UniqueTail(xs);
      RemoveKeepsIdsUnique(tail, id);
      RemovedIdsGone(tail, id);
      if xs[0].id != id {
        UniqueCons(xs[0], Remove(tail, id));
      }
    }
  }

  /** The amount a record adds to the total: `parseFloat(amount || 0)`,
      where the empty string is falsy and counts as `0`; `value` stands
      for `parseFloat` on non-empty text. */
  function Contribution(value: string -> real, e: Expense): real
  {
    if e.amount == "" then 0.0 else value(e.amount)
  }

  /** `expenses.reduce((sum, e) => sum + contribution(e), 0)`: a left fold. */
  function Total(xs: seq<Expense>, value: string -> real): real
  {
    if xs == [] then 0.0
    else Total(xs[..|xs| - 1], value) + Contribution(value, xs[|xs| - 1])
  }

  /** The total of a concatenation is the sum of the totals; in particular
      the total of the empty list is 0. */
  lemma {:induction false} TotalConcat(a: seq<Expense>, b: seq<Expense>, value: string -> real)
    ensures Total(a + b, value) == Total(a, value) + Total(b, value)
  {
    if b == [] {
      assert a + b == a;
    } else {
      var b' := b[..|b| - 1];
      assert (a + b)[..|a + b| - 1] == a + b';
      assert (a + b)[|a + b| - 1] == b[|b| - 1];
      TotalConcat(a, b', value);
    }
  }

  /** Appending a record adds that record's contribution. */
  lemma TotalAppend(xs: seq<Expense>, d: Draft, newId: Id, value: string -> real)
    ensures Total([], value) == 0.0
    ensures Total(Append(xs, d, newId), value) == Total(xs, value) + Contribution(value, Stamp(d, newId))
  {
    var r := Append(xs, d, newId);
    assert r[..|r| - 1] == xs;
  }

  /** The total of one record is its contribution. */
  lemma TotalSingle(e: Expense, value: string -> real)
    ensures Total([e], value) == Contribution(value, e)
  {
    assert [e][..0] == [];
  }

  /** With unique ids, deleting the record at position `k` subtracts its
      contribution. */
  lemma TotalRemoveAt(xs: seq<Expense>, k: int, value: string -> real)
    requires UniqueIds(xs)
    requires 0 <= k < |xs|
    ensures Total(Remove(xs, xs[k].id), value) == Total(xs, value) - Contribution(value, xs[k])
  {
    var before, after, x := xs[..k], xs[k + 1..], xs[k];
    SplitAt(xs, k);
    RemoveAt(xs, k);
    TotalWithout(before, x, after, value);
  }

  /** A list is its prefix, the element at `k` and its suffix. */
  lemma SplitAt(xs: seq<Expense>, k: int)
    requires 0 <= k < |xs|
    ensures xs == xs[..k] + [xs[k]] + xs[k + 1..]
  {
  }

  /** Dropping one record from a split list subtracts its contribution. */
  lemma TotalWithout(before: seq<Expense>, x: Expense, after: seq<Expense>, value: string -> real)
    ensures Total(before + after, value)
         == Total(before + [x] + after, value) - Contribution(value, x)
  {
    TotalConcat(before, after, value);
    TotalAround(before, x, after, value);
  }

  /** The total of a list split around one record. */
  lemma TotalAround(before: seq<Expense>, x: Expense, after: seq<Expense>, value: string -> real)
    ensures Total(before + [x] + after, value)
         == Total(before, value) + Contribution(value, x) + Total(after, value)
  {
    TotalConcat(before + [x], after, value);
    TotalConcat(before, [x], value);
    TotalSingle(x, value);
  }

  /** With unique ids, updating the record at position `k` swaps its
      contribution for the updated record's. */
  lemma TotalReplaceAt(xs: seq<Expense>, u: Expense, k: int, value: string -> real)
    requires UniqueIds(xs)
    requires 0 <= k < |xs| && xs[k].id == u.id
    ensures Total(Replace(xs, u), value)
         == Total(xs, value) - Contribution(value, xs[k]) + Contribution(value, u)
  {
    var before, after := xs[..k], xs[k + 1..];
    ReplaceAt(xs, u, k);
    SplitAt(xs, k);
    SplitAt(xs[k := u], k);
    assert xs[k := u][..k] == before && xs[k := u][k + 1..] == after;
    TotalSwap(before, xs[k], u, after, value);
  }

  /** Swapping one record of a split list swaps its contribution. */
  lemma TotalSwap(before: seq<Expense>, x: Expense, u: Expense, after: seq<Expense>, value: string -> real)
    ensures Total(before + [u] + after, value)
         == Total(before + [x] + after, value) - Contribution(value, x) + Contribution(value, u)
  {
    TotalAround(before, x, after, value);
    TotalAround(before, u, after, value);
  }
}
