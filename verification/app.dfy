/**
 The state of the province selector and the operations its one component
 performs on it. Each operation reads the three collections and returns the
 whole replacement state, as the component hands whole new arrays to its
 state setters.

 Values the component takes from the browser are parameters here: the id
 (`Date.now().toString()`), the creation timestamp, the text typed into the
 input field, the answer to the list-name prompt (`None` when it is
 cancelled), the answer to the confirmation dialog, and the random choices of
 the shuffle (as draws, see `Lists.Shuffle`).
 */
module App {
  import opened Text
  import opened Lists

  datatype Option<T> = None | Some(value: T)

  /** A catalog entry. The optional `completed` flag is a `bool`, its absence
      read as `false`, as the component does with `!province.completed`. */
  datatype Province = Province(id: string, name: string, completed: bool)

  /** A named, timestamped copy of the randomized list. */
  datatype SavedList = SavedList(id: string, name: string, list: seq<Province>, createdAt: string)

  /** The three collections the component keeps: the catalog, the current
      randomized list and the saved lists. */
  datatype State = State(provinces: seq<Province>, randomizedList: seq<Province>, savedLists: seq<SavedList>)

  /** What adding a name reports to the user. */
  datatype AddOutcome = Added | EmptyName | DuplicateName

  /** The state the component starts from before anything is loaded. */
  function Initial(): (s: State)
    ensures |s.provinces| == |s.randomizedList| == |s.savedLists| == 0
  {
    State([], [], [])
  }

  /** `provinces.some(p => p.name.toLowerCase() === name.toLowerCase())`. */
  function NameTaken(ps: seq<Province>, name: string): (b: bool)
    ensures b <==> exists k :: 0 <= k < |ps| && SameName(ps[k].name, name)
  {
    ps != [] && (SameName(ps[0].name, name) || NameTaken(ps[1..], name))
  }

  /** `addProvince`: trims the input; rejects it when nothing is left or when
      the catalog already holds the name up to case; otherwise appends a new
      entry with the trimmed name and the given id. A rejection leaves the
      whole state as it was. */
  function AddProvince(s: State, input: string, newId: string): (r: (State, AddOutcome))
    ensures r.1 == EmptyName <==> AllWhitespace(input)
    ensures r.1 == DuplicateName <==>
              !AllWhitespace(input)
              && exists k :: 0 <= k < |s.provinces| && SameName(s.provinces[k].name, Trim(input))
    ensures r.1 != Added ==> r.0 == s
    ensures r.1 == Added ==>
              && r.0.randomizedList == s.randomizedList && r.0.savedLists == s.savedLists
              && r.0.provinces == s.provinces + [Province(newId, Trim(input), false)]
  {
    var name := Trim(input);
    if name == [] then (s, EmptyName)
    else if NameTaken(s.provinces, name) then (s, DuplicateName)
    else (s.(provinces := s.provinces + [Province(newId, name, false)]), Added)
  }

  /** `p => p.id !== id` applied with `filter`. */
  function WithoutId(ps: seq<Province>, id: string): (r: seq<Province>)
    ensures forall k :: 0 <= k < |r| ==> r[k].id != id && r[k] in ps
    ensures forall k :: 0 <= k < |ps| && ps[k].id != id ==> ps[k] in r
    ensures forall p :: multiset(r)[p] == if p.id == id then 0 else multiset(ps)[p]
    ensures IsSubsequence(r, ps)
  {
    FilterIsSubsequence(ps, (p: Province) => p.id != id);
    Filter(ps, (p: Province) => p.id != id)
  }

  /** With no entry carrying `id`, filtering it out changes nothing. */
  lemma WithoutAbsentId(ps: seq<Province>, id: string)
    requires forall k :: 0 <= k < |ps| ==> ps[k].id != id
    ensures WithoutId(ps, id) == ps
  {
    FilterKeepsAll(ps, (p: Province) => p.id != id);
  }

  /** `removeProvince`: every entry with the id leaves the catalog and the
      randomized list; everything else stays, in order; the saved lists are
      not touched. */
  function RemoveProvince(s: State, id: string): (r: State)
    ensures forall k :: 0 <= k < |r.provinces| ==> r.provinces[k].id != id && r.provinces[k] in s.provinces
    ensures forall k :: 0 <= k < |s.provinces| && s.provinces[k].id != id ==> s.provinces[k] in r.provinces
    ensures forall k :: 0 <= k < |r.randomizedList| ==>
              r.randomizedList[k].id != id && r.randomizedList[k] in s.randomizedList
    ensures forall k :: 0 <= k < |s.randomizedList| && s.randomizedList[k].id != id ==>
              s.randomizedList[k] in r.randomizedList
    ensures forall p :: multiset(r.provinces)[p] == if p.id == id then 0 else multiset(s.provinces)[p]
    ensures forall p :: multiset(r.randomizedList)[p] == if p.id == id then 0 else multiset(s.randomizedList)[p]
    ensures IsSubsequence(r.provinces, s.provinces) && IsSubsequence(r.randomizedList, s.randomizedList)
    ensures r.savedLists == s.savedLists
  {
    State(WithoutId(s.provinces, id), WithoutId(s.randomizedList, id), s.savedLists)
  }

  /** `clearAllProvinces`: the catalog and the randomized list become empty;
      the saved lists stay. */
  function ClearAllProvinces(s: State): (r: State)
    ensures |r.provinces| == 0 && |r.randomizedList| == 0
    ensures r.savedLists == s.savedLists
  {
    s.(provinces := [], randomizedList := [])
  }

  /** `{ ...province, completed: false }`. */
  function ResetCompleted(p: Province): (r: Province)
    ensures r.id == p.id && r.name == p.name && !r.completed
  {
    p.(completed := false)
  }

  /** `randomizeList`: nothing happens on an empty catalog. Otherwise the
      randomized list becomes a reordering of the catalog, chosen by the
      draws, with every flag cleared; the catalog and the saved lists stay. */
  function Randomize(s: State, draws: seq<nat>): (r: State)
    ensures |s.provinces| == 0 ==> r == s
    ensures r.provinces == s.provinces && r.savedLists == s.savedLists
    ensures |s.provinces| != 0 ==>
              && |r.randomizedList| == |s.provinces|
              && (forall k :: 0 <= k < |r.randomizedList| ==> !r.randomizedList[k].completed)
              && multiset(r.randomizedList) == multiset(Map(s.provinces, ResetCompleted))
  {
    if s.provinces == [] then s
    else
      var shuffled := Shuffle(s.provinces, draws);
      ShuffleIsPermutation(s.provinces, draws);
      MapOfPermutation(shuffled, s.provinces, ResetCompleted);
      s.(randomizedList := Map(shuffled, ResetCompleted))
  }

  /** `{ ...province, completed: !province.completed }`. */
  function Flip(p: Province): (r: Province)
    ensures r.id == p.id && r.name == p.name && r.completed == !p.completed
  {
    p.(completed := !p.completed)
  }

  /** The `map` both toggles apply to a list: every entry with the id gets its
      flag flipped; positions, ids, names and all other entries stay. */
  function ToggleById(ps: seq<Province>, id: string): (r: seq<Province>)
    ensures |r| == |ps|
    ensures forall k :: 0 <= k < |ps| ==>
              && r[k].id == ps[k].id && r[k].name == ps[k].name
              && (r[k].completed <==> (ps[k].id == id) != ps[k].completed)
  {
    Map(ps, (p: Province) => if p.id == id then Flip(p) else p)
  }

  /** `toggleComplete`: flips the flag of every randomized entry with the id;
      the length, the order, every id and name, every other flag, the catalog
      and the saved lists stay. */
  function ToggleComplete(s: State, id: string): (r: State)
    ensures r.provinces == s.provinces && r.savedLists == s.savedLists
    ensures |r.randomizedList| == |s.randomizedList|
    ensures forall k :: 0 <= k < |s.randomizedList| ==>
              var (before, after) := (s.randomizedList[k], r.randomizedList[k]);
              && after.id == before.id && after.name == before.name
              && (after.completed <==> (before.id == id) != before.completed)
  {
    s.(randomizedList := ToggleById(s.randomizedList, id))
  }

  /** `toggleCompleteSavedList`: inside every saved list with id `listId`,
      flips the flag of every entry with id `provinceId`. Ids, names and
      timestamps of all saved lists, the other saved lists, the catalog and the
      live randomized list stay. */
  function ToggleCompleteSavedList(s: State, listId: string, provinceId: string): (r: State)
    ensures r.provinces == s.provinces && r.randomizedList == s.randomizedList
    ensures |r.savedLists| == |s.savedLists|
    ensures forall k :: 0 <= k < |s.savedLists| ==>
              var (before, after) := (s.savedLists[k], r.savedLists[k]);
              && after.id == before.id && after.name == before.name && after.createdAt == before.createdAt
              && after.list == (if before.id == listId then ToggleById(before.list, provinceId) else before.list)
  {
    var update := (l: SavedList) => if l.id == listId then l.(list := ToggleById(l.list, provinceId)) else l;
    s.(savedLists := Map(s.savedLists, update))
  }

  /** `saveRandomList`: with an empty randomized list, a cancelled prompt or a
      blank answer nothing happens; otherwise a saved list with the trimmed
      answer as its name and a copy of the randomized list, flags included, is
      appended. */
  function SaveRandomList(s: State, answer: Option<string>, newId: string, createdAt: string): (r: State)
    ensures r.provinces == s.provinces && r.randomizedList == s.randomizedList
    ensures |s.randomizedList| == 0 || answer.None? || AllWhitespace(answer.value) ==> r == s
    ensures |s.randomizedList| != 0 && answer.Some? && !AllWhitespace(answer.value) ==>
              r.savedLists == s.savedLists + [SavedList(newId, Trim(answer.value), s.randomizedList, createdAt)]
  {
    if s.randomizedList == [] then s
    else if answer.None? || Trim(answer.value) == [] then s
    else s.(savedLists := s.savedLists + [SavedList(newId, Trim(answer.value), s.randomizedList, createdAt)])
  }

  /** The delete button of a saved list: every saved list with the id goes;
      the others stay, in order; the catalog and the randomized list stay. */
  function DeleteSavedList(s: State, listId: string): (r: State)
    ensures r.provinces == s.provinces && r.randomizedList == s.randomizedList
    ensures forall k :: 0 <= k < |r.savedLists| ==> r.savedLists[k].id != listId && r.savedLists[k] in s.savedLists
    ensures forall k :: 0 <= k < |s.savedLists| && s.savedLists[k].id != listId ==> s.savedLists[k] in r.savedLists
    ensures forall l :: multiset(r.savedLists)[l] == if l.id == listId then 0 else multiset(s.savedLists)[l]
    ensures IsSubsequence(r.savedLists, s.savedLists)
  {
    var keep := (l: SavedList) => l.id != listId;
    FilterIsSubsequence(s.savedLists, keep);
    s.(savedLists := Filter(s.savedLists, keep))
  }

  /** `clearAllSavedLists`: when the user confirms, the saved lists become
      empty; when not, nothing happens. The other collections stay. */
  function ClearAllSavedLists(s: State, confirmed: bool): (r: State)
    ensures r.provinces == s.provinces && r.randomizedList == s.randomizedList
    ensures confirmed ==> |r.savedLists| == 0
    ensures !confirmed ==> r == s
  {
    if confirmed then s.(savedLists := []) else s
  }
}
