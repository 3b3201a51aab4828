/** The decisions the three workflow steps take on the server's answers:
    which adventures to accept or finish, which crafted items to collect and
    whether to start a new one, and whether to bet. Each remote call a step
    makes is returned as an `Action` instead of being sent; the server's
    answers and the clock are parameters. */
module Workflow {
  import opened Wrappers

  /** An owned item: `{ id, count }` from `GetMyProps`. */
  datatype Prop = Prop(id: string, count: int)
  /** A material a recipe needs. */
  datatype Material = Material(id: string, count: int)
  datatype Adventure = Adventure(id: string, title: string, status: string)
  /** An item being crafted; it can be collected from `validTime` on. */
  datatype Equipment = Equipment(id: string, name: string, validTime: int)
  /** A recipe; `materials` is absent when the server's list was empty,
      since the JSON form of the response leaves empty lists out. */
  datatype Recipe = Recipe(id: string, name: string, materials: Option<seq<Material>>)
  datatype Gambling = Gambling(id: string, canBet: bool)

  /** The remote calls a step makes, in order. */
  datatype Action =
    | AcceptAdventure(adventure: string)
    | FinishAdventure(adventure: string)
    | FinishMaking(equipment: string)
    | GetMyProps
    | GetMakingList
    | MakeEquipment(recipe: string)
    | BetGambling(game: string)

  // ---------------------------------------------------------------------
  // hasEnoughMaterials

  /** The count the props map holds for `id` once every prop was stored in
      order: the last prop with that id wins, and an id nobody owns reads
      as 0. */
  function Owned(props: seq<Prop>, id: string): int {
    if |props| == 0 then 0
    else if props[|props| - 1].id == id then props[|props| - 1].count
    else Owned(props[..|props| - 1], id)
  }

  /** The last prop with the id decides the count. */
  lemma {:induction false} OwnedIsLastMatch(props: seq<Prop>, id: string, k: nat)
    requires k < |props| && props[k].id == id
    requires forall j :: k < j < |props| ==> props[j].id != id
    ensures Owned(props, id) == props[k].count
    decreases |props|
  {
    if k < |props| - 1 {
      OwnedIsLastMatch(props[..|props| - 1], id, k);
    }
  }

  /** An id that no prop carries is owned 0 times. */
  lemma {:induction false} OwnedMissing(props: seq<Prop>, id: string)
    requires forall j :: 0 <= j < |props| ==> props[j].id != id
    ensures Owned(props, id) == 0
    decreases |props|
  {
    if |props| > 0 {
      OwnedMissing(props[..|props| - 1], id);
    }
  }

  /** Every required material is owned at least the required number of
      times. */
  ghost predicate Enough(props: seq<Prop>, required: seq<Material>) {
    forall i :: 0 <= i < |required| ==> required[i].count <= Owned(props, required[i].id)
  }

  /** `propsMap[id] || 0`. */
  function CountIn(propsMap: map<string, int>, id: string): int {
    if id in propsMap then propsMap[id] else 0
  }

  /** `hasEnoughMaterials`: fill the map from the props, then stop at the
      first material that is short. */
  method HasEnoughMaterials(props: seq<Prop>, required: seq<Material>) returns (ok: bool)
    ensures ok <==> Enough(props, required)
  {
    var propsMap: map<string, int> := map[];
    for i := 0 to |props|
      invariant forall id :: CountIn(propsMap, id) == Owned(props[..i], id)
    {
      assert props[..i + 1][..i] == props[..i];
      propsMap := propsMap[props[i].id := props[i].count];
    }
    assert props[..|props|] == props;
    for i := 0 to |required|
      invariant forall j :: 0 <= j < i ==> required[j].count <= Owned(props, required[j].id)
    {
      if CountIn(propsMap, required[i].id) < required[i].count {
        return false;
      }
    }
    return true;
  }

  // ---------------------------------------------------------------------
  // handleAdventure

  /** The call for one adventure: accept an idle one, collect a completed
      one, leave the others. */
  function AdventureAction(adv: Adventure): seq<Action> {
    if adv.status == "IDLE" then [AcceptAdventure(adv.id)]
    else if adv.status == "COMPLETED" then [FinishAdventure(adv.id)]
    else []
  }

  /** The calls for a list of adventures, in list order. */
  function AdventurePlan(advs: seq<Adventure>): seq<Action> {
    if |advs| == 0 then [] else AdventurePlan(advs[..|advs| - 1]) + AdventureAction(advs[|advs| - 1])
  }

  /** The plan accepts exactly the idle adventures, finishes exactly the
      completed ones, and does nothing else. */
  lemma {:induction false} AdventurePlanExact(advs: seq<Adventure>)
    ensures forall id :: (AcceptAdventure(id) in AdventurePlan(advs)
                          <==> exists i :: 0 <= i < |advs| && advs[i].status == "IDLE" && advs[i].id == id)
    ensures forall id :: (FinishAdventure(id) in AdventurePlan(advs)
                          <==> exists i :: 0 <= i < |advs| && advs[i].status == "COMPLETED" && advs[i].id == id)
    ensures forall a :: a in AdventurePlan(advs) ==> a.AcceptAdventure? || a.FinishAdventure?
    ensures |AdventurePlan(advs)| <= |advs|
    decreases |advs|
  {
    if |advs| > 0 {
      var front := advs[..|advs| - 1];
      AdventurePlanExact(front);
      forall id | exists i :: 0 <= i < |advs| && advs[i].status == "IDLE" && advs[i].id == id
        ensures AcceptAdventure(id) in AdventurePlan(advs)
      {
        var i :| 0 <= i < |advs| && advs[i].status == "IDLE" && advs[i].id == id;
        if i < |advs| - 1 {
          assert front[i] == advs[i];
        }
      }
      forall id | exists i :: 0 <= i < |advs| && advs[i].status == "COMPLETED" && advs[i].id == id
        ensures FinishAdventure(id) in AdventurePlan(advs)
      {
        var i :| 0 <= i < |advs| && advs[i].status == "COMPLETED" && advs[i].id == id;
        if i < |advs| - 1 {
          assert front[i] == advs[i];
        }
      }
      forall id | AcceptAdventure(id) in AdventurePlan(advs)
        ensures exists i :: 0 <= i < |advs| && advs[i].status == "IDLE" && advs[i].id == id
      {
        if AcceptAdventure(id) in AdventurePlan(front) {
          var i :| 0 <= i < |front| && front[i].status == "IDLE" && front[i].id == id;
          assert advs[i] == front[i];
        } else {
          assert advs[|advs| - 1].status == "IDLE" && advs[|advs| - 1].id == id;
        }
      }
      forall id | FinishAdventure(id) in AdventurePlan(advs)
        ensures exists i :: 0 <= i < |advs| && advs[i].status == "COMPLETED" && advs[i].id == id
      {
        if FinishAdventure(id) in AdventurePlan(front) {
          var i :| 0 <= i < |front| && front[i].status == "COMPLETED" && front[i].id == id;
          assert advs[i] == front[i];
        } else {
          assert advs[|advs| - 1].status == "COMPLETED" && advs[|advs| - 1].id == id;
        }
      }
    }
  }

  /** `handleAdventure` once the list has arrived: nothing when the list
      is absent, otherwise one call per idle or completed adventure. */
  method HandleAdventure(data: Option<seq<Adventure>>) returns (actions: seq<Action>)
    ensures actions == if data.None? then [] else AdventurePlan(data.value)
  {
    if data.None? {
      return [];
    }
    var advs := data.value;
    actions := [];
    for i := 0 to |advs|
      invariant actions == AdventurePlan(advs[..i])
    {
      assert advs[..i + 1][..i] == advs[..i];
      var adv := advs[i];
      if adv.status == "IDLE" {
        actions := actions + [AcceptAdventure(adv.id)];
      } else if adv.status == "COMPLETED" {
        actions := actions + [FinishAdventure(adv.id)];
      }
    }
    assert advs[..|advs|] == advs;
  }

  // ---------------------------------------------------------------------
  // handleMaking

  /** `now >= Number(eq.validTime)`. */
  predicate Ready(eq: Equipment, now: int) {
    now >= eq.validTime
  }

  /** The collect calls for the ready items, in list order. */
  function FinishCalls(equipment: seq<Equipment>, now: int): seq<Action> {
    if |equipment| == 0 then []
    else
      var last := equipment[|equipment| - 1];
      FinishCalls(equipment[..|equipment| - 1], now) + (if Ready(last, now) then [FinishMaking(last.id)] else [])
  }

  /** The collect calls are exactly the ready items, and nothing else. */
  lemma {:induction false} FinishCallsExact(equipment: seq<Equipment>, now: int)
    ensures forall a :: a in FinishCalls(equipment, now) ==> a.FinishMaking?
    ensures forall id :: (FinishMaking(id) in FinishCalls(equipment, now)
                          <==> exists i :: 0 <= i < |equipment| && equipment[i].id == id && Ready(equipment[i], now))
    decreases |equipment|
  {
    if |equipment| > 0 {
      var front := equipment[..|equipment| - 1];
      FinishCallsExact(front, now);
      forall id | exists i :: 0 <= i < |equipment| && equipment[i].id == id && Ready(equipment[i], now)
        ensures FinishMaking(id) in FinishCalls(equipment, now)
      {
        var i :| 0 <= i < |equipment| && equipment[i].id == id && Ready(equipment[i], now);
        if i < |equipment| - 1 {
          assert front[i] == equipment[i];
        }
      }
      forall id | FinishMaking(id) in FinishCalls(equipment, now)
        ensures exists i :: 0 <= i < |equipment| && equipment[i].id == id && Ready(equipment[i], now)
      {
        if FinishMaking(id) in FinishCalls(front, now) {
          var i :| 0 <= i < |front| && front[i].id == id && Ready(front[i], now);
          assert equipment[i] == front[i];
        } else {
          assert equipment[|equipment| - 1].id == id;
        }
      }
    }
  }

  /** `canMakeNew` after the loop: no item is still in progress. */
  predicate AllReady(equipment: seq<Equipment>, now: int) {
    forall i :: 0 <= i < |equipment| ==> Ready(equipment[i], now)
  }

  /** The recipe loop's verdict. `NotIterable` is the `TypeError` that
      `for (const req of undefined)` throws for a recipe without a
      materials list; it ends the whole step. */
  datatype Choice = NothingToMake | Make(recipe: string) | NotIterable

  /** A recipe the loop passes over: its materials are listed and short. */
  ghost predicate Passed(props: seq<Prop>, r: Recipe) {
    r.materials.Some? && !Enough(props, r.materials.value)
  }

  /** The first recipe that either has no list or has enough materials
      decides. */
  ghost function Choose(props: seq<Prop>, recipes: seq<Recipe>): Choice
    decreases |recipes|
  {
    if |recipes| == 0 then NothingToMake
    else match recipes[0].materials
      case None => NotIterable
      case Some(m) => if Enough(props, m) then Make(recipes[0].id) else Choose(props, recipes[1..])
  }

  /** First fit: the recipe chosen has enough materials and every recipe
      before it is passed over; nothing is chosen exactly when every recipe
      is passed over. */
  lemma {:induction false} ChooseFirstFit(props: seq<Prop>, recipes: seq<Recipe>)
    ensures Choose(props, recipes).Make? ==>
      exists k :: 0 <= k < |recipes| && recipes[k].id == Choose(props, recipes).recipe
        && recipes[k].materials.Some? && Enough(props, recipes[k].materials.value)
        && forall j :: 0 <= j < k ==> Passed(props, recipes[j])
    ensures Choose(props, recipes).NotIterable? ==>
      exists k :: 0 <= k < |recipes| && recipes[k].materials.None?
        && forall j :: 0 <= j < k ==> Passed(props, recipes[j])
    ensures Choose(props, recipes) == NothingToMake <==> forall k :: 0 <= k < |recipes| ==> Passed(props, recipes[k])
    decreases |recipes|
  {
    if |recipes| > 0 {
      var rest := recipes[1..];
      ChooseFirstFit(props, rest);
      if Choose(props, recipes) != NothingToMake && recipes[0].materials.Some? && !Enough(props, recipes[0].materials.value) {
        var c := Choose(props, rest);
        if c.Make? {
          var k :| 0 <= k < |rest| && rest[k].id == c.recipe && rest[k].materials.Some?
            && Enough(props, rest[k].materials.value) && forall j :: 0 <= j < k ==> Passed(props, rest[j]);
          assert recipes[k + 1] == rest[k];
          assert forall j :: 0 < j < k + 1 ==> recipes[j] == rest[j - 1];
        } else if c.NotIterable? {
          var k :| 0 <= k < |rest| && rest[k].materials.None? && forall j :: 0 <= j < k ==> Passed(props, rest[j]);
          assert recipes[k + 1] == rest[k];
          assert forall j :: 0 < j < k + 1 ==> recipes[j] == rest[j - 1];
        }
      }
      if forall k :: 0 <= k < |recipes| ==> Passed(props, recipes[k]) {
        assert Passed(props, recipes[0]);
        assert forall k :: 0 <= k < |rest| ==> recipes[k + 1] == rest[k];
      }
    }
  }

  /** The converse of first fit: a recipe with enough materials and only
      passed-over recipes before it is the one chosen. */
  lemma {:induction false} ChooseFirstFitAt(props: seq<Prop>, recipes: seq<Recipe>, k: nat)
    requires k < |recipes| && recipes[k].materials.Some? && Enough(props, recipes[k].materials.value)
    requires forall j :: 0 <= j < k ==> Passed(props, recipes[j])
    ensures Choose(props, recipes) == Make(recipes[k].id)
    decreases k
  {
    if k > 0 {
      assert Passed(props, recipes[0]);
      var rest := recipes[1..];
      assert forall j :: 0 <= j < k - 1 ==> rest[j] == recipes[j + 1];
      ChooseFirstFitAt(props, rest, k - 1);
    }
  }

  /** What `handleMaking` does: the collect calls, then, only when no item
      is still in progress, the two queries and at most one craft call;
      `aborted` when the recipe loop threw. */
  datatype MakingOutcome = MakingOutcome(actions: seq<Action>, aborted: bool)

  ghost function MakingPlan(equipment: seq<Equipment>, now: int, props: seq<Prop>, recipes: seq<Recipe>): MakingOutcome {
    var finish := FinishCalls(equipment, now);
    if !AllReady(equipment, now) then MakingOutcome(finish, false)
    else match Choose(props, recipes)
      case NothingToMake => MakingOutcome(finish + [GetMyProps, GetMakingList], false)
      case Make(id) => MakingOutcome(finish + [GetMyProps, GetMakingList, MakeEquipment(id)], false)
      case NotIterable => MakingOutcome(finish + [GetMyProps, GetMakingList], true)
  }

  /** At most one item is started. */
  lemma MakingStartsAtMostOne(equipment: seq<Equipment>, now: int, props: seq<Prop>, recipes: seq<Recipe>)
    ensures var p := MakingPlan(equipment, now, props, recipes).actions;
      forall i, j :: (0 <= i < |p| && 0 <= j < |p| && p[i].MakeEquipment? && p[j].MakeEquipment?) ==> i == j
  {
    var finish := FinishCalls(equipment, now);
    FinishCallsExact(equipment, now);
    var p := MakingPlan(equipment, now, props, recipes).actions;
    assert forall k :: 0 <= k < |finish| ==> p[k] == finish[k] && finish[k] in finish;
    forall i | 0 <= i < |p| && p[i].MakeEquipment? ensures i == |p| - 1 {
      assert i >= |finish|;
    }
  }

  /** The props and recipes are fetched exactly when nothing is in
      progress. */
  lemma MakingQueriesIffAllReady(equipment: seq<Equipment>, now: int, props: seq<Prop>, recipes: seq<Recipe>)
    ensures GetMyProps in MakingPlan(equipment, now, props, recipes).actions <==> AllReady(equipment, now)
    ensures GetMakingList in MakingPlan(equipment, now, props, recipes).actions <==> AllReady(equipment, now)
  {
    FinishCallsExact(equipment, now);
    var finish := FinishCalls(equipment, now);
    var p := MakingPlan(equipment, now, props, recipes).actions;
    if AllReady(equipment, now) {
      assert p[|finish|] == GetMyProps && p[|finish| + 1] == GetMakingList;
    }
  }

  /** An item is started only when nothing is in progress, and it is the
      first recipe whose materials suffice; when nothing is in progress and
      some recipe has enough materials with only passed-over recipes before
      it, that recipe is started. */
  lemma MakingStartsFirstFit(equipment: seq<Equipment>, now: int, props: seq<Prop>, recipes: seq<Recipe>, id: string)
    ensures MakeEquipment(id) in MakingPlan(equipment, now, props, recipes).actions ==>
      AllReady(equipment, now)
      && exists k :: 0 <= k < |recipes| && recipes[k].id == id
           && recipes[k].materials.Some? && Enough(props, recipes[k].materials.value)
           && forall j :: 0 <= j < k ==> Passed(props, recipes[j])
    ensures forall k ::
              (AllReady(equipment, now) && 0 <= k < |recipes| && recipes[k].id == id
               && recipes[k].materials.Some? && Enough(props, recipes[k].materials.value)
               && (forall j :: 0 <= j < k ==> Passed(props, recipes[j])))
              ==> MakeEquipment(id) in MakingPlan(equipment, now, props, recipes).actions
  {
    FinishCallsExact(equipment, now);
    ChooseFirstFit(props, recipes);
    var finish := FinishCalls(equipment, now);
    if MakeEquipment(id) in MakingPlan(equipment, now, props, recipes).actions {
      assert MakeEquipment(id) !in finish;
      assert AllReady(equipment, now);
      assert Choose(props, recipes) == Make(id);
    }
    forall k | AllReady(equipment, now) && 0 <= k < |recipes| && recipes[k].id == id
               && recipes[k].materials.Some? && Enough(props, recipes[k].materials.value)
               && (forall j :: 0 <= j < k ==> Passed(props, recipes[j]))
      ensures MakeEquipment(id) in MakingPlan(equipment, now, props, recipes).actions
    {
      ChooseFirstFitAt(props, recipes, k);
      var p := MakingPlan(equipment, now, props, recipes).actions;
      assert p == finish + [GetMyProps, GetMakingList, MakeEquipment(id)];
      assert p[|p| - 1] == MakeEquipment(id);
    }
  }

  /** The collect calls are exactly the ready items. */
  lemma MakingFinishesReady(equipment: seq<Equipment>, now: int, props: seq<Prop>, recipes: seq<Recipe>, id: string)
    ensures FinishMaking(id) in MakingPlan(equipment, now, props, recipes).actions
      <==> exists i :: 0 <= i < |equipment| && equipment[i].id == id && Ready(equipment[i], now)
  {
    FinishCallsExact(equipment, now);
    var finish := FinishCalls(equipment, now);
    var p := MakingPlan(equipment, now, props, recipes).actions;
    assert forall i :: |finish| <= i < |p| ==> !p[i].FinishMaking?;
    if FinishMaking(id) in p {
      var i :| 0 <= i < |p| && p[i] == FinishMaking(id);
      assert p[i] == finish[i];
    }
  }

  /** `handleMaking` once the answers are in: collect the ready items,
      clearing `canMakeNew` for any still in progress; then, if it is still
      set, fetch the props and recipes and start the first recipe whose
      materials suffice. */
  method HandleMaking(equipment: seq<Equipment>, now: int, props: seq<Prop>, recipes: seq<Recipe>)
    returns (outcome: MakingOutcome)
    ensures outcome == MakingPlan(equipment, now, props, recipes)
  {
    var actions: seq<Action> := [];
    var canMakeNew := true;
    for i := 0 to |equipment|
      invariant actions == FinishCalls(equipment[..i], now)
      invariant canMakeNew == AllReady(equipment[..i], now)
    {
      assert equipment[..i + 1][..i] == equipment[..i];
      var eq := equipment[i];
      if now >= eq.validTime {
        actions := actions + [FinishMaking(eq.id)];
      } else {
        canMakeNew := false;
      }
    }
    assert equipment[..|equipment|] == equipment;
    if !canMakeNew {
      return MakingOutcome(actions, false);
    }
    actions := actions + [GetMyProps, GetMakingList];
    var i := 0;
    while i < |recipes|
      invariant 0 <= i <= |recipes|
      invariant Choose(props, recipes) == Choose(props, recipes[i..])
    {
      var r := recipes[i];
      if r.materials.None? {
        return MakingOutcome(actions, true);
      }
      var ok := HasEnoughMaterials(props, r.materials.value);
      if ok {
        return MakingOutcome(actions + [MakeEquipment(r.id)], false);
      }
      assert recipes[i..][1..] == recipes[i + 1..];
      i := i + 1;
    }
    return MakingOutcome(actions, false);
  }

  // ---------------------------------------------------------------------
  // handleGambling

  /** `handleGambling`: one bet on today's game when betting is open, and
      no call otherwise. */
  function HandleGambling(game: Gambling): (actions: seq<Action>)
    ensures |actions| <= 1
    ensures actions != [] <==> game.canBet
    ensures forall a :: a in actions ==> a == BetGambling(game.id)
  {
    if game.canBet then [BetGambling(game.id)] else []
  }
}
