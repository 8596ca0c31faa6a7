/** The favorites store: a list of restaurants, keyed by name, that a toggle
    either removes a name from or appends a copy to. */
module Favorites {
  import opened Basics

  /** The five fields a favorite keeps. */
  datatype Restaurant = Restaurant(
    name: string,
    rating: string,
    reviewsSnippet: string,
    mapsQuery: string,
    mapsUrl: string)

  /** `favorites.some(r => r.name === name)`. */
  function AnyNamed(favs: seq<Restaurant>, name: string): (b: bool)
    ensures b <==> exists i :: 0 <= i < |favs| && favs[i].name == name
  {
    if favs == [] then false
    else favs[0].name == name || (assert forall i :: 1 <= i < |favs| ==> favs[i] == favs[1..][i - 1]; AnyNamed(favs[1..], name))
  }

  /** `favorites.filter(r => r.name !== name)`. */
  function WithoutNamed(favs: seq<Restaurant>, name: string): (r: seq<Restaurant>)
    ensures |r| <= |favs|
  {
    if favs == [] then []
    else if favs[0].name == name then WithoutNamed(favs[1..], name)
    else [favs[0]] + WithoutNamed(favs[1..], name)
  }

  /** The filter keeps exactly the entries with another name. */
  lemma {:induction false} WithoutNamedMembers(favs: seq<Restaurant>, name: string)
    ensures forall x :: x in WithoutNamed(favs, name) <==> x in favs && x.name != name
  {
    if favs != [] {
      WithoutNamedMembers(favs[1..], name);
      assert favs == [favs[0]] + favs[1..];
    }
  }

  /** The clean copy `toggleFavorite` appends: exactly the five fields. */
  function FavoriteCopy(r: Restaurant): Restaurant
  {
    Restaurant(r.name, r.rating, r.reviewsSnippet, r.mapsQuery, r.mapsUrl)
  }

  /** The favorites after `toggleFavorite(r)`. */
  function Toggled(favs: seq<Restaurant>, r: Restaurant): seq<Restaurant>
  {
    if AnyNamed(favs, r.name) then WithoutNamed(favs, r.name)
    else favs + [FavoriteCopy(r)]
  }

  ghost predicate UniqueNames(favs: seq<Restaurant>)
  {
    forall i, j :: 0 <= i < j < |favs| ==> favs[i].name != favs[j].name
  }

  lemma {:induction false} WithoutNamedSubsequence(favs: seq<Restaurant>, name: string)
    ensures IsSubsequence(WithoutNamed(favs, name), favs)
  {
    if favs != [] {
      WithoutNamedSubsequence(favs[1..], name);
      var rest := WithoutNamed(favs[1..], name);
      if favs[0].name == name {
        SubsequenceWeaken(rest, favs[1..], favs[0]);
        assert favs == [favs[0]] + favs[1..];
      } else {
        assert ([favs[0]] + rest)[1..] == rest;
      }
    }
  }

  lemma {:induction false} WithoutNamedAbsent(favs: seq<Restaurant>, name: string)
    requires !AnyNamed(favs, name)
    ensures WithoutNamed(favs, name) == favs
  {
    if favs != [] {
      WithoutNamedAbsent(favs[1..], name);
      assert [favs[0]] + favs[1..] == favs;
    }
  }

  lemma {:induction false} WithoutNamedAppend(a: seq<Restaurant>, b: seq<Restaurant>, name: string)
    ensures WithoutNamed(a + b, name) == WithoutNamed(a, name) + WithoutNamed(b, name)
  {
    if a == [] {
      assert a + b == b;
    } else {
      var ab := a + b;
      assert ab[0] == a[0] && ab[1..] == a[1..] + b;
      WithoutNamedAppend(a[1..], b, name);
      if a[0].name == name {
        assert WithoutNamed(ab, name) == WithoutNamed(a[1..] + b, name);
        assert WithoutNamed(a, name) == WithoutNamed(a[1..], name);
      } else {
        assert WithoutNamed(ab, name) == [a[0]] + WithoutNamed(a[1..] + b, name);
        assert WithoutNamed(a, name) == [a[0]] + WithoutNamed(a[1..], name);
      }
    }
  }

  /** A toggle never touches the entries with another name: the list of
      those entries, in order, is the same before and after. */
  lemma ToggleKeepsOthers(favs: seq<Restaurant>, r: Restaurant)
    ensures WithoutNamed(Toggled(favs, r), r.name) == WithoutNamed(favs, r.name)
  {
    if AnyNamed(favs, r.name) {
      WithoutNamedMembers(favs, r.name);
      WithoutNamedAbsent(WithoutNamed(favs, r.name), r.name);
    } else {
      WithoutNamedAppend(favs, [FavoriteCopy(r)], r.name);
      assert WithoutNamed([FavoriteCopy(r)], r.name) == [];
    }
  }

  /** Toggling a stored name removes every entry with that name and keeps the
      others in their order. */
  lemma ToggleRemovesPresent(favs: seq<Restaurant>, r: Restaurant)
    requires AnyNamed(favs, r.name)
    ensures var t := Toggled(favs, r);
            && !AnyNamed(t, r.name)
            && (forall x :: x in t <==> x in favs && x.name != r.name)
            && IsSubsequence(t, favs)
            && |t| < |favs|
  {
    WithoutNamedMembers(favs, r.name);
    WithoutNamedSubsequence(favs, r.name);
    WithoutNamedShorter(favs, r.name);
  }

  lemma {:induction false} WithoutNamedShorter(favs: seq<Restaurant>, name: string)
    requires AnyNamed(favs, name)
    ensures |WithoutNamed(favs, name)| < |favs|
  {
    if favs[0].name != name {
      WithoutNamedShorter(favs[1..], name);
    }
  }

  /** Toggling an absent name appends one copy of the restaurant, field by field. */
  lemma ToggleAppendsAbsent(favs: seq<Restaurant>, r: Restaurant)
    requires !AnyNamed(favs, r.name)
    ensures var t := Toggled(favs, r);
            && |t| == |favs| + 1 && t[..|favs|] == favs
            && t[|favs|].name == r.name && t[|favs|].rating == r.rating
            && t[|favs|].reviewsSnippet == r.reviewsSnippet
            && t[|favs|].mapsQuery == r.mapsQuery && t[|favs|].mapsUrl == r.mapsUrl
            && AnyNamed(t, r.name)
  {
    var t := Toggled(favs, r);
    assert t[|favs|].name == r.name;
  }

  /** Toggling the same absent restaurant twice restores the list. */
  lemma DoubleToggleAbsentRestores(favs: seq<Restaurant>, r: Restaurant)
    requires !AnyNamed(favs, r.name)
    ensures Toggled(Toggled(favs, r), r) == favs
  {
    var t := favs + [FavoriteCopy(r)];
    assert AnyNamed(t, r.name) by { assert t[|favs|].name == r.name; }
    WithoutNamedAppend(favs, [FavoriteCopy(r)], r.name);
    WithoutNamedAbsent(favs, r.name);
    assert WithoutNamed([FavoriteCopy(r)], r.name) == [];
  }

  /** With unique names, toggling a stored restaurant twice gives back the
      same collection, the restaurant now last. */
  lemma DoubleTogglePresentPermutes(favs: seq<Restaurant>, r: Restaurant)
    requires UniqueNames(favs) && r in favs
    ensures multiset(Toggled(Toggled(favs, r), r)) == multiset(favs)
  {
    var k :| 0 <= k < |favs| && favs[k] == r;
    var once := favs[..k] + favs[k + 1..];
    OnlyEntryNamed(favs, k);
    WithoutNamedOnly(favs, r.name, k);
    assert AnyNamed(favs, r.name);
    assert Toggled(favs, r) == once;
    assert !AnyNamed(once, r.name);
    assert Toggled(once, r) == once + [r];
    assert favs == favs[..k] + [r] + favs[k + 1..];
  }

  /** With unique names, the entry at k is the only one carrying its name,
      and removing it leaves no entry with that name. */
  lemma OnlyEntryNamed(favs: seq<Restaurant>, k: nat)
    requires UniqueNames(favs) && k < |favs|
    ensures forall i :: 0 <= i < |favs| && i != k ==> favs[i].name != favs[k].name
    ensures !AnyNamed(favs[..k] + favs[k + 1..], favs[k].name)
  {
    var once := favs[..k] + favs[k + 1..];
    forall i | 0 <= i < |favs| && i != k ensures favs[i].name != favs[k].name {
      if i < k { assert favs[i].name != favs[k].name; } else { assert favs[k].name != favs[i].name; }
    }
    forall i | 0 <= i < |once| ensures once[i].name != favs[k].name {
      if i < k { assert once[i] == favs[i]; } else { assert once[i] == favs[i + 1]; }
    }
  }

  lemma {:induction false} WithoutNamedOnly(favs: seq<Restaurant>, name: string, k: nat)
    requires k < |favs| && favs[k].name == name
    requires forall i :: 0 <= i < |favs| && i != k ==> favs[i].name != name
    ensures WithoutNamed(favs, name) == favs[..k] + favs[k + 1..]
  {
    var tail := favs[1..];
    if k == 0 {
      assert forall i :: 0 <= i < |tail| ==> tail[i] == favs[i + 1];
      WithoutNamedAbsent(tail, name);
    } else {
      assert forall i :: 0 <= i < |tail| && i != k - 1 ==> tail[i] == favs[i + 1];
      WithoutNamedOnly(tail, name, k - 1);
      assert favs[0].name != name;
      assert WithoutNamed(favs, name) == [favs[0]] + WithoutNamed(tail, name);
      assert favs[..k] == [favs[0]] + tail[..k - 1];
      assert favs[k + 1..] == tail[k..];
    }
  }

  /** A toggle keeps names unique. */
  lemma TogglePreservesUniqueNames(favs: seq<Restaurant>, r: Restaurant)
    requires UniqueNames(favs)
    ensures UniqueNames(Toggled(favs, r))
  {
    if AnyNamed(favs, r.name) {
      WithoutNamedSubsequence(favs, r.name);
      SubsequenceUniqueNames(WithoutNamed(favs, r.name), favs);
    } else {
      var t := Toggled(favs, r);
      forall i, j | 0 <= i < j < |t| ensures t[i].name != t[j].name {
        if j < |favs| { assert t[i] == favs[i] && t[j] == favs[j]; }
        else { assert t[i] == favs[i]; }
      }
    }
  }

  lemma {:induction false} SubsequenceUniqueNames(a: seq<Restaurant>, b: seq<Restaurant>)
    requires IsSubsequence(a, b) && UniqueNames(b)
    ensures UniqueNames(a)
    decreases |b|
  {
    if a != [] {
      var tail := b[1..];
      assert UniqueNames(tail) by {
        forall i, j | 0 <= i < j < |tail| ensures tail[i].name != tail[j].name {
          assert tail[i] == b[i + 1] && tail[j] == b[j + 1];
        }
      }
      if a[0] == b[0] && IsSubsequence(a[1..], tail) {
        SubsequenceUniqueNames(a[1..], tail);
        forall i, j | 0 <= i < j < |a| ensures a[i].name != a[j].name {
          if i == 0 {
            SubsequenceMembers(a[1..], tail, a[j]);
            assert a[j] == a[1..][j - 1];
            var m :| 0 <= m < |tail| && tail[m] == a[j];
            assert b[m + 1] == a[j];
          } else {
            assert a[i] == a[1..][i - 1] && a[j] == a[1..][j - 1];
          }
        }
      } else {
        SubsequenceUniqueNames(a, tail);
      }
    }
  }

  /** The service object: its `favorites` list is replaced on every toggle. */
  class FavoritesService {
    var favorites: seq<Restaurant>

    constructor ()
      ensures favorites == []
    {
      favorites := [];
    }

    function IsFavorite(restaurantName: string): (b: bool)
      reads this
      ensures b <==> exists i :: 0 <= i < |favorites| && favorites[i].name == restaurantName
    {
      AnyNamed(favorites, restaurantName)
    }

    method ToggleFavorite(restaurant: Restaurant)
      modifies this
      ensures favorites == Toggled(old(favorites), restaurant)
      ensures IsFavorite(restaurant.name) <==> !old(IsFavorite(restaurant.name))
      ensures UniqueNames(old(favorites)) ==> UniqueNames(favorites)
    {
      ghost var before := favorites;
      if IsFavorite(restaurant.name) {
        ToggleRemovesPresent(before, restaurant);
        favorites := WithoutNamed(favorites, restaurant.name);
      } else {
        ToggleAppendsAbsent(before, restaurant);
        var favoriteToAdd := FavoriteCopy(restaurant);
        favorites := favorites + [favoriteToAdd];
      }
      if UniqueNames(before) {
        TogglePreservesUniqueNames(before, restaurant);
      }
    }

    method GetFavorites() returns (favs: seq<Restaurant>)
      ensures favs == favorites
    {
      favs := favorites;
    }
  }
}
