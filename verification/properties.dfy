/**
 What the component's operations promise, stated over one or two calls:
 name uniqueness in the catalog, toggling as an involution, the shuffle as
 "any reordering", and removal reaching the randomized list.
 */
module Properties {
  import opened Text
  import opened Lists
  import opened App

  /** No two catalog names are equal once lower-cased. */
  predicate NamesUnique(ps: seq<Province>) {
    forall i, j :: 0 <= i < j < |ps| ==> !SameName(ps[i].name, ps[j].name)
  }

  /** A successful add keeps the catalog free of case-insensitive duplicates,
      and the new name is non-empty and trimmed. */
  lemma AddKeepsNamesUnique(s: State, input: string, newId: string)
    requires NamesUnique(s.provinces)
    ensures NamesUnique(AddProvince(s, input, newId).0.provinces)
    ensures AddProvince(s, input, newId).1 == Added ==>
              var name := Trim(input); name != [] && IsTrimmed(name)
  {
    var (r, outcome) := AddProvince(s, input, newId);
    if outcome == Added {
      var n := |s.provinces|;
      forall i, j | 0 <= i < j < |r.provinces| ensures !SameName(r.provinces[i].name, r.provinces[j].name) {
        if j == n {
          assert r.provinces[i] == s.provinces[i];
        } else {
          assert r.provinces[i] == s.provinces[i] && r.provinces[j] == s.provinces[j];
        }
      }
    }
  }

  /** Leaving entries out, in order, cannot create a duplicate name. */
  lemma {:induction false} SubsequenceKeepsNamesUnique(r: seq<Province>, ps: seq<Province>)
    requires IsSubsequence(r, ps) && NamesUnique(ps)
    ensures NamesUnique(r)
    decreases |ps|
  {
    if r != [] {
      assert NamesUnique(ps[1..]) by {
        forall i, j | 0 <= i < j < |ps| - 1 ensures !SameName(ps[1..][i].name, ps[1..][j].name) {
          assert ps[1..][i] == ps[i + 1] && ps[1..][j] == ps[j + 1];
        }
      }
      if r[0] == ps[0] && IsSubsequence(r[1..], ps[1..]) {
        SubsequenceKeepsNamesUnique(r[1..], ps[1..]);
        SubsequenceMembers(r[1..], ps[1..]);
        forall i, j | 0 <= i < j < |r| ensures !SameName(r[i].name, r[j].name) {
          if i == 0 {
            assert r[j] == r[1..][j - 1];
            var m :| 0 <= m < |ps[1..]| && ps[1..][m] == r[j];
            assert ps[m + 1] == r[j];
          } else {
            assert r[i] == r[1..][i - 1] && r[j] == r[1..][j - 1];
          }
        }
      } else {
        SubsequenceKeepsNamesUnique(r, ps[1..]);
      }
    }
  }

  /** Removing by id keeps the catalog free of case-insensitive duplicates. */
  lemma RemoveKeepsNamesUnique(s: State, id: string)
    requires NamesUnique(s.provinces)
    ensures NamesUnique(RemoveProvince(s, id).provinces)
  {
    SubsequenceKeepsNamesUnique(RemoveProvince(s, id).provinces, s.provinces);
  }

  /** Removing an id nobody carries changes nothing. */
  lemma RemoveAbsentIsNoop(s: State, id: string)
    requires forall k :: 0 <= k < |s.provinces| ==> s.provinces[k].id != id
    requires forall k :: 0 <= k < |s.randomizedList| ==> s.randomizedList[k].id != id
    ensures RemoveProvince(s, id) == s
  {
    WithoutAbsentId(s.provinces, id);
    WithoutAbsentId(s.randomizedList, id);
  }

  lemma AlbertaIsTrimmed()
    ensures Trim("alberta") == "alberta" && !AllWhitespace("alberta")
  {
    var typed := "alberta";
    assert IsTrimmed(typed) by {
      assert typed[0] == 'a' && typed[|typed| - 1] == 'a';
    }
    TrimOfTrimmed(typed);
    assert !IsWhitespace(typed[0]);
  }

  lemma AlbertaMatchesIgnoringCase()
    ensures SameName("Alberta", "alberta")
  {
    var l, r := ToLower("Alberta"), ToLower("alberta");
    assert LowerChar('A') == 'a';
    assert forall k :: 0 <= k < 7 ==> l[k] == r[k];
  }

  /** With a catalog holding only "Alberta", adding "alberta" is refused as a
      duplicate and the catalog keeps its one entry. */
  lemma DuplicateIgnoringCase(s: State, newId: string)
    requires s.provinces == [Province("1", "Alberta", false)]
    ensures AddProvince(s, "alberta", newId).1 == DuplicateName
    ensures AddProvince(s, "alberta", newId).0 == s
  {
    AlbertaIsTrimmed();
    AlbertaMatchesIgnoringCase();
    assert NameTaken(s.provinces, Trim("alberta")) by {
      assert SameName(s.provinces[0].name, Trim("alberta"));
    }
  }

  /** Deleting a saved-list id no saved list carries changes nothing. */
  lemma DeleteAbsentIsNoop(s: State, listId: string)
    requires forall k :: 0 <= k < |s.savedLists| ==> s.savedLists[k].id != listId
    ensures DeleteSavedList(s, listId) == s
  {
    FilterKeepsAll(s.savedLists, (l: SavedList) => l.id != listId);
  }

  /** Toggling the same id twice restores every flag. */
  lemma ToggleTwice(ps: seq<Province>, id: string)
    ensures ToggleById(ToggleById(ps, id), id) == ps
  {
    var r := ToggleById(ToggleById(ps, id), id);
    assert forall k :: 0 <= k < |ps| ==> r[k] == ps[k];
  }

  /** Toggling one id, then another, is the same as the other way round. */
  lemma ToggleCommutes(ps: seq<Province>, a: string, b: string)
    ensures ToggleById(ToggleById(ps, a), b) == ToggleById(ToggleById(ps, b), a)
  {
    var l, r := ToggleById(ToggleById(ps, a), b), ToggleById(ToggleById(ps, b), a);
    assert forall k :: 0 <= k < |ps| ==> l[k] == r[k];
  }

  /** `toggleComplete` twice on the same id gives back the same state. */
  lemma ToggleCompleteTwice(s: State, id: string)
    ensures ToggleComplete(ToggleComplete(s, id), id) == s
  {
    ToggleTwice(s.randomizedList, id);
  }

  /** `toggleCompleteSavedList` twice on the same ids gives back the same
      state. */
  lemma ToggleSavedTwice(s: State, listId: string, provinceId: string)
    ensures ToggleCompleteSavedList(ToggleCompleteSavedList(s, listId, provinceId), listId, provinceId) == s
  {
    var r := ToggleCompleteSavedList(ToggleCompleteSavedList(s, listId, provinceId), listId, provinceId);
    forall k | 0 <= k < |s.savedLists| ensures r.savedLists[k] == s.savedLists[k] {
      ToggleTwice(s.savedLists[k].list, provinceId);
    }
  }

  /** Every reordering of the catalog, flags cleared, is a possible result of
      `randomizeList`. */
  lemma RandomizeReachesEveryOrder(s: State, order: seq<Province>)
    requires |s.provinces| != 0 && multiset(order) == multiset(s.provinces)
    ensures exists draws :: Randomize(s, draws).randomizedList == Map(order, ResetCompleted)
  {
    ShuffleReachesEveryPermutation(s.provinces, order);
    var draws :| Shuffle(s.provinces, draws) == order;
    assert Randomize(s, draws).randomizedList == Map(order, ResetCompleted);
  }

  /** Right after a randomize, toggling an id marks exactly the entries with
      that id as completed. */
  lemma ToggleAfterRandomize(s: State, draws: seq<nat>, id: string)
    requires |s.provinces| != 0
    ensures var r := ToggleComplete(Randomize(s, draws), id).randomizedList;
            forall k :: 0 <= k < |r| ==> (r[k].completed <==> r[k].id == id)
  {
  }

  /** Each entry of a fresh randomized list is a catalog entry with its flag
      cleared. */
  lemma RandomizedEntryFromCatalog(s: State, draws: seq<nat>, k: nat)
    requires |s.provinces| != 0 && k < |Randomize(s, draws).randomizedList|
    ensures exists m :: 0 <= m < |s.provinces| && Randomize(s, draws).randomizedList[k] == ResetCompleted(s.provinces[m])
  {
    var reset := Map(s.provinces, ResetCompleted);
    var x := Randomize(s, draws).randomizedList[k];
    assert x in multiset(reset);
    var m :| 0 <= m < |reset| && reset[m] == x;
    assert x == ResetCompleted(s.provinces[m]);
  }

  /** After removing an id, randomizing never brings an entry with that id
      back: not from the catalog, and not from the old randomized list. */
  lemma RemoveThenRandomize(s: State, id: string, draws: seq<nat>)
    ensures var r := Randomize(RemoveProvince(s, id), draws).randomizedList;
            forall k :: 0 <= k < |r| ==> r[k].id != id
  {
    var t := RemoveProvince(s, id);
    var r := Randomize(t, draws).randomizedList;
    if |t.provinces| != 0 {
      forall k | 0 <= k < |r| ensures r[k].id != id {
        RandomizedEntryFromCatalog(t, draws, k);
        var m :| 0 <= m < |t.provinces| && r[k] == ResetCompleted(t.provinces[m]);
      }
    }
  }
}
