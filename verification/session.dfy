/**
 A session: the user's intents applied one after another, each through the
 operation the component binds to it, starting from the empty state. Proves
 what holds after any sequence of intents: the catalog never holds two names
 equal up to case, and a saved list is never changed by what is done to the
 catalog or the live randomized list afterwards.
 */
module Session {
  import opened Text
  import opened Lists
  import opened App
  import opened Properties

  /** One user intent, with the values the browser would supply for it. */
  datatype Intent =
    | AddIntent(input: string, newId: string)
    | RemoveIntent(id: string)
    | ClearProvincesIntent
    | RandomizeIntent(draws: seq<nat>)
    | ToggleIntent(id: string)
    | ToggleSavedIntent(listId: string, provinceId: string)
    | SaveIntent(answer: Option<string>, newId: string, createdAt: string)
    | DeleteSavedIntent(listId: string)
    | ClearSavedIntent(confirmed: bool)

  function Step(s: State, intent: Intent): State {
    match intent
    case AddIntent(input, newId) => AddProvince(s, input, newId).0
    case RemoveIntent(id) => RemoveProvince(s, id)
    case ClearProvincesIntent => ClearAllProvinces(s)
    case RandomizeIntent(draws) => Randomize(s, draws)
    case ToggleIntent(id) => ToggleComplete(s, id)
    case ToggleSavedIntent(listId, provinceId) => ToggleCompleteSavedList(s, listId, provinceId)
    case SaveIntent(answer, newId, createdAt) => SaveRandomList(s, answer, newId, createdAt)
    case DeleteSavedIntent(listId) => DeleteSavedList(s, listId)
    case ClearSavedIntent(confirmed) => ClearAllSavedLists(s, confirmed)
  }

  /** The state after the intents, in order. */
  function Run(s: State, intents: seq<Intent>): State
    decreases |intents|
  {
    if intents == [] then s else Run(Step(s, intents[0]), intents[1..])
  }

  /** What the invariant asks of each catalog entry. */
  predicate WellFormedEntries(ps: seq<Province>) {
    forall k :: 0 <= k < |ps| ==> ps[k].name != [] && IsTrimmed(ps[k].name) && !ps[k].completed
  }

  /** What every reachable state satisfies: catalog names are unique up to
      case, trimmed and non-empty, and carry no flag; every randomized entry
      is a catalog entry with its own flag; every saved list has a trimmed,
      non-empty name and a non-empty list. */
  predicate Valid(s: State) {
    && NamesUnique(s.provinces)
    && WellFormedEntries(s.provinces)
    && (forall k :: 0 <= k < |s.randomizedList| ==> ResetCompleted(s.randomizedList[k]) in s.provinces)
    && (forall k :: 0 <= k < |s.savedLists| ==>
          s.savedLists[k].name != [] && IsTrimmed(s.savedLists[k].name) && s.savedLists[k].list != [])
  }

  lemma InitialIsValid()
    ensures Valid(Initial())
  {
  }

  /** Appending a well-formed entry keeps the catalog well formed and every
      randomized entry a catalog entry. */
  lemma AppendKeepsCatalog(ps: seq<Province>, rs: seq<Province>, p: Province)
    requires WellFormedEntries(ps) && p.name != [] && IsTrimmed(p.name) && !p.completed
    requires forall k :: 0 <= k < |rs| ==> ResetCompleted(rs[k]) in ps
    ensures WellFormedEntries(ps + [p])
    ensures forall k :: 0 <= k < |rs| ==> ResetCompleted(rs[k]) in ps + [p]
  {
    var ps' := ps + [p];
    forall k | 0 <= k < |ps'| ensures ps'[k].name != [] && IsTrimmed(ps'[k].name) && !ps'[k].completed {
      if k < |ps| { assert ps'[k] == ps[k]; }
    }
  }

  lemma AddKeepsValid(s: State, input: string, newId: string)
    requires Valid(s)
    ensures Valid(AddProvince(s, input, newId).0)
  {
    AddKeepsNamesUnique(s, input, newId);
    if AddProvince(s, input, newId).1 == Added {
      AppendKeepsCatalog(s.provinces, s.randomizedList, Province(newId, Trim(input), false));
    }
  }

  /** Filtering one id out of the catalog and out of the randomized list keeps
      every remaining randomized entry a catalog entry. */
  lemma WithoutIdKeepsFromCatalog(ps: seq<Province>, rs: seq<Province>, id: string)
    requires forall k :: 0 <= k < |rs| ==> ResetCompleted(rs[k]) in ps
    ensures var (ps', rs') := (WithoutId(ps, id), WithoutId(rs, id));
            forall k :: 0 <= k < |rs'| ==> ResetCompleted(rs'[k]) in ps'
  {
    var (ps', rs') := (WithoutId(ps, id), WithoutId(rs, id));
    forall k | 0 <= k < |rs'| ensures ResetCompleted(rs'[k]) in ps' {
      var i :| 0 <= i < |rs| && rs[i] == rs'[k];
      var m :| 0 <= m < |ps| && ps[m] == ResetCompleted(rs[i]);
      assert ps[m].id != id;
    }
  }

  /** Filtering an id out of the catalog keeps every entry well formed. */
  lemma WithoutIdKeepsWellFormed(ps: seq<Province>, id: string)
    requires WellFormedEntries(ps)
    ensures WellFormedEntries(WithoutId(ps, id))
  {
    var ps' := WithoutId(ps, id);
    forall k | 0 <= k < |ps'| ensures ps'[k].name != [] && IsTrimmed(ps'[k].name) && !ps'[k].completed {
      var m :| 0 <= m < |ps| && ps[m] == ps'[k];
    }
  }

  lemma RemoveKeepsValid(s: State, id: string)
    requires Valid(s)
    ensures Valid(RemoveProvince(s, id))
  {
    RemoveKeepsNamesUnique(s, id);
    WithoutIdKeepsFromCatalog(s.provinces, s.randomizedList, id);
    WithoutIdKeepsWellFormed(s.provinces, id);
  }

  lemma RandomizeKeepsValid(s: State, draws: seq<nat>)
    requires Valid(s)
    ensures Valid(Randomize(s, draws))
  {
    var r := Randomize(s, draws);
    if |s.provinces| != 0 {
      forall k | 0 <= k < |r.randomizedList| ensures ResetCompleted(r.randomizedList[k]) in r.provinces {
        RandomizedEntryFromCatalog(s, draws, k);
        var m :| 0 <= m < |s.provinces| && r.randomizedList[k] == ResetCompleted(s.provinces[m]);
        assert ResetCompleted(s.provinces[m]) == s.provinces[m];
      }
    }
  }

  lemma ToggleKeepsValid(s: State, id: string)
    requires Valid(s)
    ensures Valid(ToggleComplete(s, id))
  {
    var r := ToggleComplete(s, id);
    forall k | 0 <= k < |r.randomizedList| ensures ResetCompleted(r.randomizedList[k]) in r.provinces {
      assert ResetCompleted(r.randomizedList[k]) == ResetCompleted(s.randomizedList[k]);
    }
  }

  lemma ToggleSavedKeepsValid(s: State, listId: string, provinceId: string)
    requires Valid(s)
    ensures Valid(ToggleCompleteSavedList(s, listId, provinceId))
  {
    var r := ToggleCompleteSavedList(s, listId, provinceId);
    forall k | 0 <= k < |r.savedLists| ensures r.savedLists[k].list != [] {
      assert |r.savedLists[k].list| == |s.savedLists[k].list|;
    }
  }

  lemma SaveKeepsValid(s: State, answer: Option<string>, newId: string, createdAt: string)
    requires Valid(s)
    ensures Valid(SaveRandomList(s, answer, newId, createdAt))
  {
    var r := SaveRandomList(s, answer, newId, createdAt);
    if r != s {
      forall k | 0 <= k < |r.savedLists|
        ensures r.savedLists[k].name != [] && IsTrimmed(r.savedLists[k].name) && r.savedLists[k].list != []
      {
        if k < |s.savedLists| { assert r.savedLists[k] == s.savedLists[k]; }
      }
    }
  }

  lemma DeleteSavedKeepsValid(s: State, listId: string)
    requires Valid(s)
    ensures Valid(DeleteSavedList(s, listId))
  {
    var r := DeleteSavedList(s, listId);
    forall k | 0 <= k < |r.savedLists|
      ensures r.savedLists[k].name != [] && IsTrimmed(r.savedLists[k].name) && r.savedLists[k].list != []
    {
      var m :| 0 <= m < |s.savedLists| && s.savedLists[m] == r.savedLists[k];
    }
  }

  lemma {:induction false} StepKeepsValid(s: State, intent: Intent)
    requires Valid(s)
    ensures Valid(Step(s, intent))
  {
    match intent
    case AddIntent(input, newId) => AddKeepsValid(s, input, newId);
    case RemoveIntent(id) => RemoveKeepsValid(s, id);
    case ClearProvincesIntent =>
    case RandomizeIntent(draws) => RandomizeKeepsValid(s, draws);
    case ToggleIntent(id) => ToggleKeepsValid(s, id);
    case ToggleSavedIntent(listId, provinceId) => ToggleSavedKeepsValid(s, listId, provinceId);
    case SaveIntent(answer, newId, createdAt) => SaveKeepsValid(s, answer, newId, createdAt);
    case DeleteSavedIntent(listId) => DeleteSavedKeepsValid(s, listId);
    case ClearSavedIntent(confirmed) =>
  }

  lemma {:induction false} RunKeepsValid(s: State, intents: seq<Intent>)
    requires Valid(s)
    ensures Valid(Run(s, intents))
    decreases |intents|
  {
    if intents != [] {
      StepKeepsValid(s, intents[0]);
      RunKeepsValid(Step(s, intents[0]), intents[1..]);
    }
  }

  /** Whatever the user does from the empty start, the catalog never holds
      two names equal up to case. */
  lemma NamesAlwaysUnique(intents: seq<Intent>)
    ensures NamesUnique(Run(Initial(), intents).provinces)
  {
    InitialIsValid();
    RunKeepsValid(Initial(), intents);
  }

  /** Intents that act on the catalog or the live randomized list only. */
  predicate IsLiveIntent(intent: Intent) {
    intent.AddIntent? || intent.RemoveIntent? || intent.ClearProvincesIntent?
    || intent.RandomizeIntent? || intent.ToggleIntent?
  }

  /** Working on the catalog and the live randomized list never touches the
      saved lists. */
  lemma {:induction false} LiveIntentsKeepSavedLists(s: State, intents: seq<Intent>)
    requires forall k :: 0 <= k < |intents| ==> IsLiveIntent(intents[k])
    ensures Run(s, intents).savedLists == s.savedLists
    decreases |intents|
  {
    if intents != [] {
      assert IsLiveIntent(intents[0]);
      assert forall k :: 0 <= k < |intents[1..]| ==> intents[1..][k] == intents[k + 1];
      LiveIntentsKeepSavedLists(Step(s, intents[0]), intents[1..]);
    }
  }

  /** A list saved from the randomized list keeps exactly the entries and flags
      it had when it was saved, however the catalog and the live randomized
      list are changed afterwards. */
  lemma SavedListIsIsolated(s: State, answer: string, newId: string, createdAt: string, later: seq<Intent>)
    requires |s.randomizedList| != 0 && !AllWhitespace(answer)
    requires forall k :: 0 <= k < |later| ==> IsLiveIntent(later[k])
    ensures var r := Run(SaveRandomList(s, Some(answer), newId, createdAt), later);
            && |r.savedLists| == |s.savedLists| + 1
            && r.savedLists[|s.savedLists|] == SavedList(newId, Trim(answer), s.randomizedList, createdAt)
  {
    LiveIntentsKeepSavedLists(SaveRandomList(s, Some(answer), newId, createdAt), later);
  }
}
