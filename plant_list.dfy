/** The plant roster: plants grouped under the name of their garden, a
    count badge per group, and a delete dialog that asks for the plant's
    name before anything is deleted. */
module PlantList {
  import opened Common

  /** A garden (canvas) as listed by the backend. */
  datatype Canvas = Canvas(id: int, name: string)

  /** A plant as listed by the backend. Its garden is named by `canvasId`
      or, in records of the older shape, by `canvas-id` (`canvasIdAlt`). */
  datatype Plant = Plant(id: int, name: string, canvasId: Option<int>, canvasIdAlt: Option<int>)

  const UnassignedGroup: string := "Unassigned Plants"
  const MsgNameMismatch: string := "Plant name does not match"
  const MsgDeleteFailed: string := "Failed to delete plant"
  const MsgDeleteError: string := "Error deleting plant"
  const MsgFetchFailed: string := "Failed to fetch plants"
  const MsgFetchCanvasesFailed: string := "Failed to fetch canvases"
  const MsgConnectError: string := "Error connecting to server"

  // ---------------------------------------------------------------------
  // Grouping

  /** `canvases.reduce(...)`: garden id to garden name, a later canvas
      overwriting an earlier one with the same id. */
  function GardenMap(canvases: seq<Canvas>): map<int, string> {
    if canvases == [] then map[]
    else
      var last := canvases[|canvases| - 1];
      GardenMap(canvases[..|canvases| - 1])[last.id := last.name]
  }

  /** Every listed id, and only those, is a key of the garden map. */
  lemma {:induction false} GardenMapKeys(canvases: seq<Canvas>)
    ensures forall id :: id in GardenMap(canvases) <==> exists i :: 0 <= i < |canvases| && canvases[i].id == id
  {
    if canvases != [] {
      var init := canvases[..|canvases| - 1];
      GardenMapKeys(init);
      assert forall i :: 0 <= i < |init| ==> init[i] == canvases[i];
    }
  }

  /** No later canvas shares the id of canvas i. */
  predicate LastWithId(canvases: seq<Canvas>, i: nat)
    requires i < |canvases|
  {
    forall j :: i < j < |canvases| ==> canvases[j].id != canvases[i].id
  }

  /** When two canvases share an id, the later one's name wins. */
  lemma {:induction false} GardenMapLastWins(canvases: seq<Canvas>, i: nat)
    requires i < |canvases| && LastWithId(canvases, i)
    ensures canvases[i].id in GardenMap(canvases) && GardenMap(canvases)[canvases[i].id] == canvases[i].name
  {
    if i < |canvases| - 1 {
      var init := canvases[..|canvases| - 1];
      assert init[i] == canvases[i];
      assert LastWithId(init, i) by {
        forall j | i < j < |init|
          ensures init[j].id != init[i].id
        {
          assert init[j] == canvases[j];
        }
      }
      GardenMapLastWins(init, i);
    }
  }

  /** An id is truthy unless it is absent or zero. */
  predicate Truthy(v: Option<int>) {
    v.Some? && v.value != 0
  }

  /** `plant.canvasId || plant['canvas-id'] || 'unassigned'`; None stands
      for the key 'unassigned', which no garden has. */
  function GardenKey(p: Plant): Option<int> {
    if Truthy(p.canvasId) then p.canvasId
    else if Truthy(p.canvasIdAlt) then p.canvasIdAlt
    else None
  }

  /** The name of the group a plant is listed under: its garden's name, or
      "Unassigned Plants" when it has no garden, its garden is not listed,
      or its garden's name is empty. */
  function GardenName(p: Plant, gardens: map<int, string>): string {
    match GardenKey(p)
    case Some(k) => if k in gardens && gardens[k] != "" then gardens[k] else UnassignedGroup
    case None => UnassignedGroup
  }

  /** The plants listed under `name`, in list order. */
  function Members(plants: seq<Plant>, gardens: map<int, string>, name: string): seq<Plant> {
    if plants == [] then []
    else
      var last := plants[|plants| - 1];
      Members(plants[..|plants| - 1], gardens, name) + (if GardenName(last, gardens) == name then [last] else [])
  }

  /** A plant is in the group of `name` exactly when it is one of the plants
      and its group name is `name`. */
  lemma {:induction false} MembersAre(plants: seq<Plant>, gardens: map<int, string>, name: string)
    ensures forall p :: p in Members(plants, gardens, name) <==> p in plants && GardenName(p, gardens) == name
  {
    if plants != [] {
      var init := plants[..|plants| - 1];
      MembersAre(init, gardens, name);
      assert plants == init + [plants[|plants| - 1]];
    }
  }

  /** A group keeps the relative order of its plants: its k-th plant is the
      plant at idx[k] of the list, and idx increases. */
  lemma {:induction false} MembersKeepOrder(plants: seq<Plant>, gardens: map<int, string>, name: string)
    returns (idx: seq<nat>)
    ensures |idx| == |Members(plants, gardens, name)|
    ensures forall k :: 0 <= k < |idx| ==>
              idx[k] < |plants| && Members(plants, gardens, name)[k] == plants[idx[k]]
              && GardenName(plants[idx[k]], gardens) == name
    ensures forall a, b :: 0 <= a < b < |idx| ==> idx[a] < idx[b]
  {
    if plants == [] {
      idx := [];
    } else {
      var init := plants[..|plants| - 1];
      var last := plants[|plants| - 1];
      var prev := MembersKeepOrder(init, gardens, name);
      var m := Members(init, gardens, name);
      var all := Members(plants, gardens, name);
      assert all == m + (if GardenName(last, gardens) == name then [last] else []);
      idx := if GardenName(last, gardens) == name then prev + [|plants| - 1] else prev;
      forall k | 0 <= k < |idx|
        ensures idx[k] < |plants| && all[k] == plants[idx[k]] && GardenName(plants[idx[k]], gardens) == name
      {
        if k < |prev| {
          assert idx[k] == prev[k] && all[k] == m[k] && plants[prev[k]] == init[prev[k]];
        }
      }
    }
  }

  /** The group names the plants occur under. */
  function NamesOf(plants: seq<Plant>, gardens: map<int, string>): set<string> {
    if plants == [] then {}
    else NamesOf(plants[..|plants| - 1], gardens) + {GardenName(plants[|plants| - 1], gardens)}
  }

  lemma {:induction false} NamesOfAre(plants: seq<Plant>, gardens: map<int, string>)
    ensures forall n :: n in NamesOf(plants, gardens) <==> exists i :: 0 <= i < |plants| && GardenName(plants[i], gardens) == n
  {
    if plants != [] {
      var init := plants[..|plants| - 1];
      NamesOfAre(init, gardens);
      assert forall i :: 0 <= i < |init| ==> init[i] == plants[i];
    }
  }

  /** A name under which no plant occurs has an empty group. */
  lemma {:induction false} MembersOfAbsentName(plants: seq<Plant>, gardens: map<int, string>, name: string)
    requires name !in NamesOf(plants, gardens)
    ensures Members(plants, gardens, name) == []
  {
    if plants != [] {
      MembersOfAbsentName(plants[..|plants| - 1], gardens, name);
    }
  }

  /** The index of the first plant from `from` on whose group name is
      `name`, or `|plants|` when there is none. */
  function FirstFrom(plants: seq<Plant>, gardens: map<int, string>, name: string, from: nat): (r: nat)
    requires from <= |plants|
    ensures from <= r <= |plants|
    ensures forall j :: from <= j < r ==> GardenName(plants[j], gardens) != name
    ensures r < |plants| ==> GardenName(plants[r], gardens) == name
    decreases |plants| - from
  {
    if from == |plants| || GardenName(plants[from], gardens) == name then from
    else FirstFrom(plants, gardens, name, from + 1)
  }

  /** Where the group of `name` first occurs in the list. */
  function FirstIndex(plants: seq<Plant>, gardens: map<int, string>, name: string): nat {
    FirstFrom(plants, gardens, name, 0)
  }

  /** A plant whose name no earlier plant has is its group's first plant. */
  lemma FirstIndexOfNewName(plants: seq<Plant>, gardens: map<int, string>, i: nat)
    requires i < |plants|
    requires GardenName(plants[i], gardens) !in NamesOf(plants[..i], gardens)
    ensures FirstIndex(plants, gardens, GardenName(plants[i], gardens)) == i
  {
    var name := GardenName(plants[i], gardens);
    NamesOfAre(plants[..i], gardens);
    assert forall j :: 0 <= j < i ==> plants[..i][j] == plants[j];
  }

  predicate Distinct(names: seq<string>) {
    forall i, j :: 0 <= i < j < |names| ==> names[i] != names[j]
  }

  /** The number of plants in the groups named by `order`. */
  function TotalSize(order: seq<string>, groups: map<string, seq<Plant>>): nat
    requires forall n :: n in order ==> n in groups
  {
    if order == [] then 0 else |groups[order[0]]| + TotalSize(order[1..], groups)
  }

  lemma {:induction false} TotalSizeAppend(order: seq<string>, groups: map<string, seq<Plant>>, name: string)
    requires forall n :: n in order ==> n in groups
    requires name in groups
    ensures TotalSize(order + [name], groups) == TotalSize(order, groups) + |groups[name]|
  {
    if order != [] {
      assert (order + [name])[1..] == order[1..] + [name];
      TotalSizeAppend(order[1..], groups, name);
    }
  }

  /** Changing a group that `order` does not name leaves the total alone. */
  lemma {:induction false} TotalSizeOther(order: seq<string>, groups: map<string, seq<Plant>>, name: string, v: seq<Plant>)
    requires forall n :: n in order ==> n in groups
    requires name !in order
    ensures TotalSize(order, groups[name := v]) == TotalSize(order, groups)
  {
    if order != [] {
      TotalSizeOther(order[1..], groups, name, v);
    }
  }

  /** Changing a group that `order` names once changes the total by the
      change of that group's size. */
  lemma {:induction false} TotalSizeUpdate(order: seq<string>, groups: map<string, seq<Plant>>, name: string, v: seq<Plant>)
    requires forall n :: n in order ==> n in groups
    requires Distinct(order) && name in order
    ensures TotalSize(order, groups[name := v]) + |groups[name]| == TotalSize(order, groups) + |v|
  {
    if order[0] == name {
      assert name !in order[1..];
      TotalSizeOther(order[1..], groups, name, v);
    } else {
      TotalSizeUpdate(order[1..], groups, name, v);
    }
  }

  /** `groupPlantsByGarden`: the plants partitioned by group name. The
      groups are keyed by the names that occur; each group holds exactly its
      plants in list order; `order` lists the group names once each, in
      order of first occurrence (the insertion order of the result object);
      and the group sizes add up to the number of plants. */
  method GroupPlantsByGarden(plants: seq<Plant>, canvases: seq<Canvas>)
    returns (grouped: map<string, seq<Plant>>, order: seq<string>)
    ensures grouped.Keys == NamesOf(plants, GardenMap(canvases))
    ensures forall n :: n in grouped ==> grouped[n] == Members(plants, GardenMap(canvases), n)
    ensures Distinct(order) && forall n :: n in order <==> n in grouped
    ensures forall a, b :: 0 <= a < b < |order| ==>
              FirstIndex(plants, GardenMap(canvases), order[a]) < FirstIndex(plants, GardenMap(canvases), order[b])
    ensures TotalSize(order, grouped) == |plants|
  {
    var gardens := GardenMap(canvases);
    grouped, order := map[], [];
    for i := 0 to |plants|
      invariant GroupedUpTo(plants, gardens, i, grouped, order)
    {
      var p := plants[i];
      var name := GardenName(p, gardens);
      var group, order' := [], order;
      if name !in grouped {
        // a new group is created on the first plant of its name
        order' := order + [name];
      } else {
        group := grouped[name];
      }
      var grouped' := grouped[name := group + [p]];
      PushStep(plants, gardens, i, grouped, order, grouped', order');
      grouped, order := grouped', order';
    }
    assert plants[..|plants|] == plants;
  }

  /** The loop invariant of the grouping: `grouped` and `order` are the
      groups of the first i plants. */
  ghost predicate GroupedUpTo(plants: seq<Plant>, gardens: map<int, string>, i: nat,
                              grouped: map<string, seq<Plant>>, order: seq<string>)
  {
    && i <= |plants|
    && grouped.Keys == NamesOf(plants[..i], gardens)
    && (forall n :: n in grouped ==> grouped[n] == Members(plants[..i], gardens, n))
    && Distinct(order) && (forall n :: n in order <==> n in grouped)
    && FirstOrder(plants, gardens, order, i)
    && TotalSize(order, grouped) == i
  }

  /** One iteration of the grouping keeps its invariant: plant i pushed
      onto its group, the group and its name added first if it is new. */
  lemma PushStep(plants: seq<Plant>, gardens: map<int, string>, i: nat,
                 grouped: map<string, seq<Plant>>, order: seq<string>,
                 grouped': map<string, seq<Plant>>, order': seq<string>)
    requires i < |plants| && GroupedUpTo(plants, gardens, i, grouped, order)
    requires var name := GardenName(plants[i], gardens);
             && grouped' == grouped[name := (if name in grouped then grouped[name] else []) + [plants[i]]]
             && order' == if name in grouped then order else order + [name]
    ensures GroupedUpTo(plants, gardens, i + 1, grouped', order')
  {
    var name := GardenName(plants[i], gardens);
    assert Distinct(order') && (forall n :: n in order' <==> n in grouped') && TotalSize(order', grouped') == i + 1 by {
      AddToGroup(order, grouped, name, plants[i]);
    }
    assert grouped'.Keys == NamesOf(plants[..i + 1], gardens)
           && forall n :: n in grouped' ==> grouped'[n] == Members(plants[..i + 1], gardens, n) by {
      GroupsAfterPush(plants, gardens, i, grouped);
    }
    assert FirstOrder(plants, gardens, order', i + 1) by {
      OrderAfterPush(plants, gardens, order, i, name in grouped);
    }
  }

  /** The groups in `order` first occur before plant i, in the order listed. */
  predicate FirstOrder(plants: seq<Plant>, gardens: map<int, string>, order: seq<string>, i: nat) {
    && (forall a :: 0 <= a < |order| ==> FirstIndex(plants, gardens, order[a]) < i)
    && (forall a, b :: 0 <= a < b < |order| ==>
          FirstIndex(plants, gardens, order[a]) < FirstIndex(plants, gardens, order[b]))
  }

  /** Appending the name of a plant that starts a new group keeps the
      names in order of first occurrence. */
  lemma OrderAfterPush(plants: seq<Plant>, gardens: map<int, string>, order: seq<string>, i: nat, known: bool)
    requires i < |plants| && FirstOrder(plants, gardens, order, i)
    requires !known ==> GardenName(plants[i], gardens) !in NamesOf(plants[..i], gardens)
    ensures FirstOrder(plants, gardens, if known then order else order + [GardenName(plants[i], gardens)], i + 1)
  {
    if !known {
      FirstIndexOfNewName(plants, gardens, i);
      var o := order + [GardenName(plants[i], gardens)];
      assert forall a :: 0 <= a < |order| ==> o[a] == order[a];
    }
  }

  /** One plant pushed onto its group, the group created first if need be:
      the names stay listed once each and the total grows by one. */
  lemma AddToGroup(order: seq<string>, grouped: map<string, seq<Plant>>, name: string, p: Plant)
    requires Distinct(order) && forall n :: n in order <==> n in grouped
    ensures var g := grouped[name := (if name in grouped then grouped[name] else []) + [p]];
            var o := if name in grouped then order else order + [name];
            && Distinct(o) && (forall n :: n in o <==> n in g)
            && TotalSize(o, g) == TotalSize(order, grouped) + 1
  {
    if name in grouped {
      TotalSizeUpdate(order, grouped, name, grouped[name] + [p]);
    } else {
      var g := grouped[name := [p]];
      assert [] + [p] == [p];
      assert Distinct(order + [name]);
      TotalSizeOther(order, grouped, name, [p]);
      TotalSizeAppend(order, g, name);
    }
  }

  /** Pushing plant i onto its group turns the groups of the first i
      plants into the groups of the first i + 1. */
  lemma GroupsAfterPush(plants: seq<Plant>, gardens: map<int, string>, i: nat, grouped: map<string, seq<Plant>>)
    requires i < |plants|
    requires grouped.Keys == NamesOf(plants[..i], gardens)
    requires forall n :: n in grouped ==> grouped[n] == Members(plants[..i], gardens, n)
    ensures var name := GardenName(plants[i], gardens);
            var g := grouped[name := (if name in grouped then grouped[name] else []) + [plants[i]]];
            && g.Keys == NamesOf(plants[..i + 1], gardens)
            && forall n :: n in g ==> g[n] == Members(plants[..i + 1], gardens, n)
  {
    var name := GardenName(plants[i], gardens);
    GroupStep(plants, gardens, i);
    if name !in grouped {
      MembersOfAbsentName(plants[..i], gardens, name);
    }
  }

  /** What one more plant adds to the names and the groups. */
  lemma GroupStep(plants: seq<Plant>, gardens: map<int, string>, i: nat)
    requires i < |plants|
    ensures NamesOf(plants[..i + 1], gardens) == NamesOf(plants[..i], gardens) + {GardenName(plants[i], gardens)}
    ensures forall n :: Members(plants[..i + 1], gardens, n)
                        == Members(plants[..i], gardens, n) + (if GardenName(plants[i], gardens) == n then [plants[i]] else [])
  {
    assert plants[..i + 1][..i] == plants[..i];
  }

  /** Every plant is listed in exactly one group: the one of its name. */
  lemma EachPlantInOneGroup(plants: seq<Plant>, gardens: map<int, string>, i: nat, name: string)
    requires i < |plants|
    ensures plants[i] in Members(plants, gardens, name) <==> name == GardenName(plants[i], gardens)
  {
    MembersAre(plants, gardens, name);
  }

  /** The garden key is a non-zero id: `canvasId` when it is truthy, else
      `canvas-id` when that is truthy, and none otherwise. */
  lemma GardenKeyFallback(p: Plant)
    ensures GardenKey(p).Some? ==> GardenKey(p).value != 0
    ensures Truthy(p.canvasId) ==> GardenKey(p) == p.canvasId
    ensures !Truthy(p.canvasId) && Truthy(p.canvasIdAlt) ==> GardenKey(p) == p.canvasIdAlt
    ensures GardenKey(p).None? <==> !Truthy(p.canvasId) && !Truthy(p.canvasIdAlt)
  {
  }

  /** A plant without a key, with a key no listed garden has, or whose
      garden's name is empty is listed under "Unassigned Plants"; any other
      plant under its garden's name. A group name is never empty. */
  lemma GardenNameFallback(p: Plant, gardens: map<int, string>)
    ensures var k := GardenKey(p);
            (k.None? || k.value !in gardens || gardens[k.value] == "") ==> GardenName(p, gardens) == UnassignedGroup
    ensures var k := GardenKey(p);
            (k.Some? && k.value in gardens && gardens[k.value] != "") ==> GardenName(p, gardens) == gardens[k.value]
    ensures GardenName(p, gardens) != ""
  {
  }

  /** Plants whose gardens bear the same name share a group, whatever the
      ids; a garden called "Unassigned Plants" shares the group of the
      plants without a garden. */
  lemma SameNameSameGroup(plants: seq<Plant>, canvases: seq<Canvas>, i: nat, j: nat)
    requires i < |plants| && j < |plants|
    requires GardenKey(plants[i]).Some? && GardenKey(plants[j]).Some?
    requires var m := GardenMap(canvases); var a := GardenKey(plants[i]).value; var b := GardenKey(plants[j]).value;
             a in m && b in m && m[a] == m[b]
    ensures var n := GardenName(plants[i], GardenMap(canvases));
            plants[i] in Members(plants, GardenMap(canvases), n) && plants[j] in Members(plants, GardenMap(canvases), n)
  {
    MembersAre(plants, GardenMap(canvases), GardenName(plants[i], GardenMap(canvases)));
  }

  // ---------------------------------------------------------------------
  // The as-written grouping (see README, Findings)

  /** The names `{}` inherits from `Object.prototype`: every one of them is
      truthy on an empty object literal. */
  const ObjectPrototypeNames: set<string> := {
    "constructor", "__proto__", "__defineGetter__", "__defineSetter__", "__lookupGetter__",
    "__lookupSetter__", "hasOwnProperty", "isPrototypeOf", "propertyIsEnumerable",
    "toLocaleString", "toString", "valueOf"
  }

  /** The reduce at PlantList.js:95-104 exactly as written: the accumulator
      is an object literal, so for an inherited name `!acc[name]` is false,
      no array is created, and `acc[name].push` throws a TypeError (None). */
  function GroupAsWritten(plants: seq<Plant>, gardens: map<int, string>): (r: Option<map<string, seq<Plant>>>)
    ensures r.None? <==> exists n :: n in NamesOf(plants, gardens) && n in ObjectPrototypeNames
    ensures r.Some? ==> r.value.Keys == NamesOf(plants, gardens)
    ensures r.Some? ==> forall n :: n in r.value ==> r.value[n] == Members(plants, gardens, n)
  {
    if plants == [] then Some(map[])
    else
      var init := plants[..|plants| - 1];
      var last := plants[|plants| - 1];
      var name := GardenName(last, gardens);
      match GroupAsWritten(init, gardens)
      case None => None
      case Some(acc) =>
        if name in acc then Some(acc[name := acc[name] + [last]])
        else if name in ObjectPrototypeNames then None
        else
          MembersOfAbsentName(init, gardens, name);
          Some(acc[name := [last]])
  }

  /** A plant in a garden called "constructor" makes the as-written
      grouping throw, where the intended grouping lists it. */
  lemma ConstructorGardenBreaksGrouping()
    ensures var plants := [Plant(7, "Basil", Some(1), None)];
            var canvases := [Canvas(1, "constructor")];
            && GroupAsWritten(plants, GardenMap(canvases)) == None
            && Members(plants, GardenMap(canvases), "constructor") == plants
  {
    var plants := [Plant(7, "Basil", Some(1), None)];
    var canvases := [Canvas(1, "constructor")];
    assert GardenMap(canvases) == map[1 := "constructor"];
    assert GardenName(plants[0], GardenMap(canvases)) == "constructor";
  }

  // ---------------------------------------------------------------------
  // Count badge

  function DigitChar(d: nat): char
    requires d < 10
  {
    "0123456789"[d]
  }

  function DigitValue(c: char): nat {
    if '0' <= c <= '9' then (c as int - '0' as int) as nat else 0
  }

  /** The decimal numeral of `n`, as a number renders in the page. */
  function Decimal(n: nat): (s: string)
    ensures |s| > 0 && forall k :: 0 <= k < |s| ==> '0' <= s[k] <= '9'
  {
    if n < 10 then [DigitChar(n)] else Decimal(n / 10) + [DigitChar(n % 10)]
  }

  function ParseDecimal(s: string): nat {
    if s == [] then 0 else 10 * ParseDecimal(s[..|s| - 1]) + DigitValue(s[|s| - 1])
  }

  /** The numeral reads back as the number. */
  lemma {:induction false} DecimalRoundTrip(n: nat)
    ensures ParseDecimal(Decimal(n)) == n
  {
    if n >= 10 {
      DecimalRoundTrip(n / 10);
      var s := Decimal(n);
      assert s[..|s| - 1] == Decimal(n / 10);
    }
  }

  /** The badge of a group of n plants: `{n} plant{n !== 1 ? 's' : ''}`. */
  function BadgeText(n: nat): string {
    Decimal(n) + " plant" + (if n != 1 then "s" else "")
  }

  /** The badge is the count, followed by " plant", followed by "s"
      exactly when the count is not one, and nothing else. */
  lemma BadgePlural(n: nat)
    ensures var b := BadgeText(n);
            && |b| >= |Decimal(n)| + 6
            && b[..|Decimal(n)|] == Decimal(n)
            && ParseDecimal(b[..|Decimal(n)|]) == n
            && |b| == |Decimal(n)| + 6 + (if n != 1 then 1 else 0)
            && b[|Decimal(n)|..|Decimal(n)| + 6] == " plant"
            && (b[|b| - 1] == 's' <==> n != 1)
  {
    DecimalRoundTrip(n);
    var b := BadgeText(n);
    assert b[..|Decimal(n)|] == Decimal(n);
  }

  lemma BadgeExamples()
    ensures BadgeText(1) == "1 plant" && BadgeText(2) == "2 plants" && BadgeText(12) == "12 plants"
  {
  }

  // ---------------------------------------------------------------------
  // Delete confirmation

  /** `handleDeletePlant` refuses unless a plant is chosen and the typed
      text equals its name exactly. */
  predicate DeleteRefused(confirm: string, target: Option<Plant>) {
    target.None? || confirm != target.value.name
  }

  /** The Delete button's `disabled`: `confirmPlantName !== plantToDelete?.name`;
      with no plant chosen the text is compared with `undefined`. */
  predicate DeleteButtonDisabled(confirm: string, target: Option<Plant>) {
    match target
    case None => true
    case Some(p) => confirm != p.name
  }

  /** The button is disabled exactly when the handler would refuse. */
  lemma ButtonMatchesHandler(confirm: string, target: Option<Plant>)
    ensures DeleteButtonDisabled(confirm, target) <==> DeleteRefused(confirm, target)
  {
  }

  /** The roster's state as far as deletion is concerned. */
  class PlantListView {
    var plants: seq<Plant>
    var canvases: seq<Canvas>
    var error: Option<string>
    var deleteModalOpen: bool
    var plantToDelete: Option<Plant>
    var confirmPlantName: string

    constructor (initialPlants: seq<Plant>, initialCanvases: seq<Canvas>)
      ensures plants == initialPlants && canvases == initialCanvases
      ensures error == None && !deleteModalOpen && plantToDelete == None && confirmPlantName == ""
    {
      plants := initialPlants;
      canvases := initialCanvases;
      error := None;
      deleteModalOpen := false;
      plantToDelete := None;
      confirmPlantName := "";
    }

    /** `fetchPlants`: a successful GET replaces the list, a failed one
        keeps it and reports an error. */
    method FetchPlants(result: FetchResult<seq<Plant>>)
      modifies this`plants, this`error
      ensures result.Fetched? ==> plants == result.data && error == old(error)
      ensures result.FetchNotOk? ==> plants == old(plants) && error == Some(MsgFetchFailed)
      ensures result.FetchThrew? ==> plants == old(plants) && error == Some(MsgConnectError)
    {
      match result {
        case Fetched(data) => plants := data;
        case FetchNotOk => error := Some(MsgFetchFailed);
        case FetchThrew => error := Some(MsgConnectError);
      }
    }

    /** `fetchCanvases`: a successful GET replaces the gardens, a failed
        one keeps them and reports an error. */
    method FetchCanvases(result: FetchResult<seq<Canvas>>)
      modifies this`canvases, this`error
      ensures result.Fetched? ==> canvases == result.data && error == old(error)
      ensures result.FetchNotOk? ==> canvases == old(canvases) && error == Some(MsgFetchCanvasesFailed)
      ensures result.FetchThrew? ==> canvases == old(canvases) && error == Some(MsgConnectError)
    {
      match result {
        case Fetched(data) => canvases := data;
        case FetchNotOk => error := Some(MsgFetchCanvasesFailed);
        case FetchThrew => error := Some(MsgConnectError);
      }
    }

    /** `openDeleteModal`: chooses the plant and clears the typed text. */
    method OpenDeleteModal(p: Plant)
      modifies this`plantToDelete, this`confirmPlantName, this`deleteModalOpen
      ensures plantToDelete == Some(p) && confirmPlantName == "" && deleteModalOpen
      ensures DeleteRefused(confirmPlantName, plantToDelete) <==> p.name != ""
    {
      plantToDelete := Some(p);
      confirmPlantName := "";
      deleteModalOpen := true;
    }

    /** The confirmation field's `onChange`. */
    method SetConfirmPlantName(text: string)
      modifies this`confirmPlantName
      ensures confirmPlantName == text
    {
      confirmPlantName := text;
    }

    /** Cancel or dismiss: only closes the dialog. */
    method CloseDeleteModal()
      modifies this`deleteModalOpen
      ensures !deleteModalOpen
    {
      deleteModalOpen := false;
    }

    /** `handleDeletePlant`. Returns the id the DELETE request was sent for,
        if one was sent: only when the typed text equals the plant's name.
        A successful delete closes the dialog, forgets the plant and the
        text, and refetches the list; a failed one only reports an error. */
    method HandleDeletePlant(response: Response, refetch: FetchResult<seq<Plant>>)
      returns (deleted: Option<int>)
      modifies this`plants, this`error, this`deleteModalOpen, this`plantToDelete, this`confirmPlantName
      ensures deleted.Some? <==> !old(DeleteRefused(confirmPlantName, plantToDelete))
      ensures deleted.Some? ==> deleted.value == old(plantToDelete).value.id
      ensures deleted.None? ==>
                error == Some(MsgNameMismatch) && plants == old(plants) && deleteModalOpen == old(deleteModalOpen)
                && plantToDelete == old(plantToDelete) && confirmPlantName == old(confirmPlantName)
      ensures deleted.Some? && response == Ok ==>
                !deleteModalOpen && plantToDelete == None && confirmPlantName == ""
                && (if refetch.Fetched? then plants == refetch.data && error == old(error)
                    else plants == old(plants)
                         && error == Some(if refetch.FetchNotOk? then MsgFetchFailed else MsgConnectError))
      ensures deleted.Some? && response != Ok ==>
                error == Some(if response == NotOk then MsgDeleteFailed else MsgDeleteError)
                && plants == old(plants) && deleteModalOpen == old(deleteModalOpen)
                && plantToDelete == old(plantToDelete) && confirmPlantName == old(confirmPlantName)
    {
      if plantToDelete.None? || confirmPlantName != plantToDelete.value.name {
        error := Some(MsgNameMismatch);
        return None;
      }
      deleted := Some(plantToDelete.value.id);
      match response {
        case Ok =>
          deleteModalOpen := false;
          plantToDelete := None;
          confirmPlantName := "";
          FetchPlants(refetch);
        case NotOk =>
          error := Some(MsgDeleteFailed);
        case Threw =>
          error := Some(MsgDeleteError);
      }
    }
  }
}
