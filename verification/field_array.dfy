/** The list editors of the Experience, Education and Projects forms: "Add"
    appends a blank entry whose id is a prefix followed by the list's length
    after adding, and the trash button removes the entry at its index. The
    id depends only on the count, so ids stay distinct while entries are
    only added or the last one removed, and repeat once an earlier entry is
    removed and another added. */
module FieldArray {
  import opened Text

  /** `append(item)`: the item goes last and every earlier entry stays in place. */
  function Append<T>(s: seq<T>, item: T): (r: seq<T>)
    ensures |r| == |s| + 1 && r[|s|] == item
    ensures forall k :: 0 <= k < |s| ==> r[k] == s[k]
  {
    s + [item]
  }

  /** `remove(index)`: the entry at `i` goes; those before it keep their
      position, those after it move up by one, and nothing else is lost. */
  function RemoveAt<T>(s: seq<T>, i: nat): (r: seq<T>)
    requires i < |s|
    ensures |r| == |s| - 1
    ensures forall k :: 0 <= k < i ==> r[k] == s[k]
    ensures forall k :: i <= k < |r| ==> r[k] == s[k + 1]
    ensures multiset(r) + multiset{s[i]} == multiset(s)
  {
    assert s == s[..i] + [s[i]] + s[i + 1..];
    s[..i] + s[i + 1..]
  }

  /** The id "Add" gives when the list has `count` entries: the prefix
      followed by the decimal digits of the new length `count + 1`. */
  function NextId(prefix: string, count: nat): (id: string)
    ensures |id| > |prefix| && id[..|prefix|] == prefix
    ensures IsDigits(id[|prefix|..]) && DecimalValue(id[|prefix|..]) == count + 1
    ensures id[|prefix|] != '0'
  {
    var id := prefix + Decimal(count + 1);
    assert id[|prefix|..] == Decimal(count + 1);
    DecimalRoundTrip(count + 1);
    id
  }

  /** The ids a list gets when it is built by "Add" alone: prefix1, prefix2, ... */
  predicate CanonicalIds(prefix: string, ids: seq<string>) {
    forall k :: 0 <= k < |ids| ==> ids[k] == prefix + Decimal(k + 1)
  }

  predicate Distinct(ids: seq<string>) {
    forall j, k :: 0 <= j < k < |ids| ==> ids[j] != ids[k]
  }

  lemma CanonicalIdsDistinct(prefix: string, ids: seq<string>)
    requires CanonicalIds(prefix, ids)
    ensures Distinct(ids)
  {
    forall j, k | 0 <= j < k < |ids|
      ensures ids[j] != ids[k]
    {
      PrefixedDecimalInjective(prefix, j + 1, k + 1);
    }
  }

  /** "Add" keeps a list built by adding in that shape. */
  lemma AppendKeepsCanonical(prefix: string, ids: seq<string>)
    requires CanonicalIds(prefix, ids)
    ensures CanonicalIds(prefix, Append(ids, NextId(prefix, |ids|)))
  {
  }

  /** After removing entry `i` from prefix1..prefixN and adding one, the ids
      are still distinct exactly when the removed entry was the last one;
      otherwise the new entry repeats the id of the former last entry. */
  lemma RemoveThenAppendDistinctIff(prefix: string, ids: seq<string>, i: nat, after: seq<string>)
    requires CanonicalIds(prefix, ids)
    requires i < |ids|
    requires after == Append(RemoveAt(ids, i), NextId(prefix, |ids| - 1))
    ensures after[|ids| - 1] == prefix + Decimal(|ids|)
    ensures Distinct(after) <==> i == |ids| - 1
  {
    var n := |ids|;
    assert |after| == n;
    assert after[n - 1] == prefix + Decimal(n);
    if i == n - 1 {
      forall k | 0 <= k < n
        ensures after[k] == prefix + Decimal(k + 1)
      {
        if k < n - 1 {
          assert after[k] == ids[k];
        }
      }
      CanonicalIdsDistinct(prefix, after);
    } else {
      assert after[n - 2] == ids[n - 1];
      assert !Distinct(after) by {
        assert after[n - 2] == after[n - 1];
      }
    }
  }

  /** The ids of a list's entries, in list order, as read by `id`. */
  function IdsOf<T>(xs: seq<T>, id: T -> string): (r: seq<string>)
    ensures |r| == |xs|
    ensures forall k :: 0 <= k < |xs| ==> r[k] == id(xs[k])
  {
    seq(|xs|, k requires 0 <= k < |xs| => id(xs[k]))
  }

  /** The same on the entries themselves: from entries with ids
      prefix1..prefixN, removing entry `i` and then appending an entry with
      the id "Add" gives leaves the ids distinct exactly when `i` was the
      last entry. */
  lemma RemoveThenAppendIds<T>(prefix: string, xs: seq<T>, id: T -> string, i: nat, item: T)
    requires CanonicalIds(prefix, IdsOf(xs, id))
    requires i < |xs|
    requires id(item) == NextId(prefix, |xs| - 1)
    ensures Distinct(IdsOf(Append(RemoveAt(xs, i), item), id)) <==> i == |xs| - 1
  {
    var ids := IdsOf(xs, id);
    var after := IdsOf(Append(RemoveAt(xs, i), item), id);
    assert after == Append(RemoveAt(ids, i), NextId(prefix, |xs| - 1));
    RemoveThenAppendDistinctIff(prefix, ids, i, after);
  }

  /** From entries with ids prefix1..prefixN, the id "Add" picks once one
      entry is gone is prefixN, the id of the last entry. */
  lemma NextIdAfterRemoveIsLast<T>(prefix: string, xs: seq<T>, id: T -> string)
    requires CanonicalIds(prefix, IdsOf(xs, id))
    requires |xs| > 0
    ensures NextId(prefix, |xs| - 1) == id(xs[|xs| - 1]) == prefix + Decimal(|xs|)
  {
    LastCanonicalId(prefix, IdsOf(xs, id));
    NextIdSpelled(prefix, |xs|);
  }

  /** The last id of prefix1..prefixN is prefixN. */
  lemma LastCanonicalId(prefix: string, ids: seq<string>)
    requires CanonicalIds(prefix, ids)
    requires |ids| > 0
    ensures ids[|ids| - 1] == prefix + Decimal(|ids|)
  {
  }

  /** The id "Add" picks for a list of `n - 1` entries, spelled out. */
  lemma NextIdSpelled(prefix: string, n: nat)
    requires n > 0
    ensures NextId(prefix, n - 1) == prefix + Decimal(n)
  {
  }
}
