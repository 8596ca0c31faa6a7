/** The search-history store: most recent search first, one entry per
    (location, filters) key, at most `MaxHistorySize` entries. */
module SearchHistory {
  import opened Basics
  import opened JsStrings

  datatype RestaurantFilters = RestaurantFilters(price: string, rating: real, cuisine: string)

  datatype SearchHistoryItem = SearchHistoryItem(id: nat, location: string, filters: RestaurantFilters)

  const MaxHistorySize: nat := 10

  /** Two entries describe the same search: their locations agree once
      lower-cased and their filters are structurally equal (the source
      compares the filters' JSON serialisations). */
  predicate SameSearch(a: SearchHistoryItem, b: SearchHistoryItem)
  {
    Lower(a.location) == Lower(b.location) && a.filters == b.filters
  }

  /** No key appears twice. */
  ghost predicate DistinctKeys(h: seq<SearchHistoryItem>)
  {
    forall i, j :: 0 <= i < j < |h| ==> !SameSearch(h[i], h[j])
  }

  /** The history invariant: bounded, and no key appears twice. */
  ghost predicate ValidHistory(h: seq<SearchHistoryItem>)
  {
    |h| <= MaxHistorySize && DistinctKeys(h)
  }

  /** The entries of `current` whose key differs from `item`'s, in order. */
  function WithoutSearch(current: seq<SearchHistoryItem>, item: SearchHistoryItem): (r: seq<SearchHistoryItem>)
    ensures |r| <= |current|
  {
    if current == [] then []
    else if SameSearch(current[0], item) then WithoutSearch(current[1..], item)
    else [current[0]] + WithoutSearch(current[1..], item)
  }

  /** Exactly the entries with another key survive, so a stored key makes
      the list shorter. */
  lemma {:induction false} WithoutSearchMembers(current: seq<SearchHistoryItem>, item: SearchHistoryItem)
    ensures forall x :: x in WithoutSearch(current, item) <==> x in current && !SameSearch(x, item)
    ensures (exists i :: 0 <= i < |current| && SameSearch(current[i], item)) ==>
              |WithoutSearch(current, item)| < |current|
  {
    if current != [] {
      WithoutSearchMembers(current[1..], item);
      assert current == [current[0]] + current[1..];
      assert forall i :: 1 <= i < |current| ==> current[i] == current[1..][i - 1];
    }
  }

  /** The history after `addSearch(item)`: the item in front of the entries
      with other keys, cut to the first `MaxHistorySize`. */
  function AddedSearch(current: seq<SearchHistoryItem>, item: SearchHistoryItem): (r: seq<SearchHistoryItem>)
    ensures 1 <= |r| <= MaxHistorySize && r[0] == item
    ensures forall i :: 0 <= i < |r| ==> (SameSearch(r[i], item) <==> i == 0)
  {
    var others := WithoutSearch(current, item);
    WithoutSearchMembers(current, item);
    var r := ([item] + others)[..Min(MaxHistorySize, 1 + |others|)];
    assert forall i :: 1 <= i < |r| ==> r[i] == others[i - 1] && r[i] in others;
    r
  }

  lemma {:induction false} WithoutSearchSubsequence(current: seq<SearchHistoryItem>, item: SearchHistoryItem)
    ensures IsSubsequence(WithoutSearch(current, item), current)
  {
    if current != [] {
      WithoutSearchSubsequence(current[1..], item);
      var rest := WithoutSearch(current[1..], item);
      if SameSearch(current[0], item) {
        SubsequenceWeaken(rest, current[1..], current[0]);
        assert current == [current[0]] + current[1..];
      } else {
        assert ([current[0]] + rest)[1..] == rest;
      }
    }
  }

  lemma {:induction false} WithoutSearchNoMatch(current: seq<SearchHistoryItem>, item: SearchHistoryItem)
    requires forall i :: 0 <= i < |current| ==> !SameSearch(current[i], item)
    ensures WithoutSearch(current, item) == current
  {
    if current != [] {
      WithoutSearchNoMatch(current[1..], item);
      assert [current[0]] + current[1..] == current;
    }
  }

  /** Removing the key of the only matching entry, at index k, removes exactly that entry. */
  lemma {:induction false} WithoutSearchOneMatch(current: seq<SearchHistoryItem>, item: SearchHistoryItem, k: nat)
    requires k < |current| && SameSearch(current[k], item)
    requires forall i :: 0 <= i < |current| && i != k ==> !SameSearch(current[i], item)
    ensures WithoutSearch(current, item) == current[..k] + current[k + 1..]
  {
    var tail := current[1..];
    assert forall i :: 0 <= i < |tail| && i != k - 1 ==> !SameSearch(tail[i], item) by {
      forall i | 0 <= i < |tail| && i != k - 1
        ensures !SameSearch(tail[i], item)
      {
        assert tail[i] == current[i + 1];
      }
    }
    if k == 0 {
      WithoutSearchNoMatch(tail, item);
      assert current[..0] + current[1..] == tail;
    } else {
      assert !SameSearch(current[0], item);
      assert tail[k - 1] == current[k];
      WithoutSearchOneMatch(tail, item, k - 1);
      assert WithoutSearch(current, item) == [current[0]] + WithoutSearch(tail, item);
      assert current[..k] == [current[0]] + tail[..k - 1];
      assert current[k + 1..] == tail[k..];
    }
  }

  /** The entries behind the new item are the leading entries of the old
      history that have another key, in their old relative order. */
  lemma AddedSearchKeepsOrder(current: seq<SearchHistoryItem>, item: SearchHistoryItem)
    ensures var r := AddedSearch(current, item);
            && |r| == Min(MaxHistorySize, 1 + |WithoutSearch(current, item)|)
            && r[1..] == WithoutSearch(current, item)[..|r| - 1]
            && IsSubsequence(r[1..], current)
  {
    var r := AddedSearch(current, item);
    var others := WithoutSearch(current, item);
    assert r[1..] == others[..|r| - 1];
    WithoutSearchSubsequence(current, item);
    SubsequencePrefix(others, current, |r| - 1);
  }

  /** A new key added to a history that is not full is put in front of the
      whole old history. */
  lemma AddNewKeyKeepsAll(current: seq<SearchHistoryItem>, item: SearchHistoryItem)
    requires |current| < MaxHistorySize
    requires forall i :: 0 <= i < |current| ==> !SameSearch(current[i], item)
    ensures AddedSearch(current, item) == [item] + current
  {
    WithoutSearchNoMatch(current, item);
    assert ([item] + current)[..1 + |current|] == [item] + current;
  }

  /** Re-adding a search whose key is already stored does not make the history longer. */
  lemma ReAddDoesNotGrow(current: seq<SearchHistoryItem>, item: SearchHistoryItem)
    requires exists i :: 0 <= i < |current| && SameSearch(current[i], item)
    ensures |AddedSearch(current, item)| <= |current|
  {
    WithoutSearchMembers(current, item);
  }

  lemma SameSearchEquivalence(a: SearchHistoryItem, b: SearchHistoryItem, c: SearchHistoryItem)
    ensures SameSearch(a, a)
    ensures SameSearch(a, b) ==> SameSearch(b, a)
    ensures SameSearch(a, b) && SameSearch(b, c) ==> SameSearch(a, c)
  {
  }

  /** In a valid history, re-adding a stored key moves that entry to the
      front: same length, the item first, the other entries in their order. */
  lemma ReAddMovesToFront(current: seq<SearchHistoryItem>, item: SearchHistoryItem, k: nat)
    requires ValidHistory(current)
    requires k < |current| && SameSearch(current[k], item)
    ensures AddedSearch(current, item) == [item] + current[..k] + current[k + 1..]
  {
    forall i | 0 <= i < |current| && i != k
      ensures !SameSearch(current[i], item)
    {
      if SameSearch(current[i], item) {
        SameSearchEquivalence(current[i], item, current[k]);
        SameSearchEquivalence(current[k], item, current[i]);
        assert false;
      }
    }
    WithoutSearchOneMatch(current, item, k);
  }

  /** Adding a new key to a full history evicts exactly the oldest entry. */
  lemma AddToFullEvictsOldest(current: seq<SearchHistoryItem>, item: SearchHistoryItem)
    requires |current| == MaxHistorySize
    requires forall i :: 0 <= i < |current| ==> !SameSearch(current[i], item)
    ensures AddedSearch(current, item) == [item] + current[..MaxHistorySize - 1]
  {
    WithoutSearchNoMatch(current, item);
  }

  /** Adding the same search twice leaves the history as adding it once. */
  lemma AddSearchIdempotent(current: seq<SearchHistoryItem>, item: SearchHistoryItem)
    ensures AddedSearch(AddedSearch(current, item), item) == AddedSearch(current, item)
  {
    var r := AddedSearch(current, item);
    WithoutSearchNoMatch(r[1..], item);
    assert r == [r[0]] + r[1..];
    assert WithoutSearch(r, item) == r[1..];
  }

  /** `addSearch` keeps the history invariant. */
  lemma AddSearchPreservesValid(current: seq<SearchHistoryItem>, item: SearchHistoryItem)
    requires ValidHistory(current)
    ensures ValidHistory(AddedSearch(current, item))
  {
    var r := AddedSearch(current, item);
    AddedSearchKeepsOrder(current, item);
    WithoutSearchDistinct(current, item);
    var others := WithoutSearch(current, item);
    forall i, j | 0 <= i < j < |r|
      ensures !SameSearch(r[i], r[j])
    {
      if i == 0 {
        SameSearchEquivalence(r[j], item, item);
      } else {
        assert r[i] == others[i - 1] && r[j] == others[j - 1];
      }
    }
  }

  lemma {:induction false} WithoutSearchDistinct(current: seq<SearchHistoryItem>, item: SearchHistoryItem)
    requires DistinctKeys(current)
    ensures DistinctKeys(WithoutSearch(current, item))
  {
    if current != [] {
      var tail := current[1..];
      assert DistinctKeys(tail) by {
        forall i, j | 0 <= i < j < |tail| ensures !SameSearch(tail[i], tail[j]) {
          assert tail[i] == current[i + 1] && tail[j] == current[j + 1];
        }
      }
      WithoutSearchDistinct(tail, item);
      WithoutSearchMembers(tail, item);
      var rest := WithoutSearch(tail, item);
      if !SameSearch(current[0], item) {
        var r := [current[0]] + rest;
        assert WithoutSearch(current, item) == r;
        forall i, j | 0 <= i < j < |r|
          ensures !SameSearch(r[i], r[j])
        {
          if i == 0 {
            assert r[j] in tail by { assert r[j] == rest[j - 1]; }
            var m :| 0 <= m < |tail| && tail[m] == r[j];
            assert current[m + 1] == r[j] && current[0] == r[0];
          } else {
            assert r[i] == rest[i - 1] && r[j] == rest[j - 1];
          }
        }
      } else {
        assert WithoutSearch(current, item) == rest;
      }
    }
  }

  /** The service object: its `history` list is replaced on every change. */
  class SearchHistoryService {
    var history: seq<SearchHistoryItem>

    constructor ()
      ensures history == []
    {
      history := [];
    }

    method AddSearch(item: SearchHistoryItem)
      modifies this
      ensures history == AddedSearch(old(history), item)
      ensures ValidHistory(old(history)) ==> ValidHistory(history)
    {
      if ValidHistory(history) {
        AddSearchPreservesValid(history, item);
      }
      history := AddedSearch(history, item);
    }

    method GetHistory() returns (h: seq<SearchHistoryItem>)
      ensures h == history
    {
      h := history;
    }
  }
}
