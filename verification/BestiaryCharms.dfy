/** src/bestiary_charm.cpp: the charm actions of a player over the stored rows, the player object and the cache. */
module BestiaryCharms {
  import opened CharmModel
  import opened Options

  class BestiaryCharmSystem {
    // stored
    var rows: Rows
    var minorEchoes: nat
    var maxMinorEchoes: nat
    // the player object
    var charmPoints: nat
    var inventoryMoney: nat
    var bankBalance: nat
    // charmStateCache
    var cached: Option<Rows>

    function View(): State
      reads this
    {
      State(rows, minorEchoes, maxMinorEchoes, charmPoints, inventoryMoney, bankBalance, cached)
    }

    constructor (s: State)
      ensures View() == s
    {
      rows, minorEchoes, maxMinorEchoes, charmPoints := s.rows, s.minor, s.max, s.points;
      inventoryMoney, bankBalance, cached := s.inventory, s.bank, s.cache;
    }

    method GetCachedCharmStates(readsRows: bool) returns (states: Rows)
      modifies `cached
      ensures View() == After(old(View()), Look(readsRows)) && cached == Some(states)
    {
      if cached.None? {
        cached := Some(if readsRows then Capped(rows) else map[]);
      }
      states := cached.value;
    }

    /** invalidatePlayer */
    method Invalidate()
      modifies `cached
      ensures cached == None && View() == After(old(View()), Drop)
    {
      cached := None;
    }

    method RemoveGold(amount: nat, env: Env) returns (ok: bool)
      modifies `inventoryMoney, `bankBalance
      ensures match Paid(old(View()), amount, env)
              case Some(s) => ok && View() == s
              case None => !ok && View() == old(View())
      ensures ok <==> Payable(old(View()), amount, env)
      ensures ok ==>
                && inventoryMoney + bankBalance == old(inventoryMoney + bankBalance) - amount
                && inventoryMoney <= old(inventoryMoney) && bankBalance <= old(bankBalance)
                && (bankBalance < old(bankBalance) ==> inventoryMoney == 0)
    {
      PaymentTakesTheAmount(View(), amount, env);
      if amount == 0 {
        return true;
      }
      if !HasGold(amount) {
        return false;
      }
      var fromInventory := if inventoryMoney < amount then inventoryMoney else amount;
      if fromInventory > 0 {
        if !env.pays {
          return false;
        }
        inventoryMoney := inventoryMoney - fromInventory;
      }
      var fromBank := amount - fromInventory;
      if fromBank > 0 {
        bankBalance := bankBalance - fromBank;
      }
      ok := true;
    }

    predicate HasGold(amount: nat)
      reads this
      ensures HasGold(amount) <==> Gold(View()) >= amount
    {
      amount == 0 || inventoryMoney >= amount || bankBalance >= amount - inventoryMoney
    }

    method UpgradeCharm(id: CharmId, env: Env) returns (ok: bool)
      modifies this
      ensures (View(), ok) == DoUpgrade(old(View()), id, env)
    {
      var tier := TierOf(Loaded(View(), env), id);
      if tier >= 3 {
        return false;
      }
      var price := Price(id, tier);
      if price == 0 {
        return false;
      }
      var (minor, max) := Echoes(View(), env);
      if CategoryOf(id) == Major {
        if charmPoints < price {
          return false;
        }
        if !env.commits {
          return false;
        }
        var echoReward := EchoReward(tier);
        rows := WithTier(rows, id, tier + 1);
        minorEchoes, maxMinorEchoes := minor + echoReward, max + echoReward;
        charmPoints := charmPoints - price;
      } else {
        if minor < price {
          return false;
        }
        if !env.commits {
          return false;
        }
        rows := WithTier(rows, id, tier + 1);
        minorEchoes, maxMinorEchoes := minor - price, max;
      }
      cached := None;
      ok := true;
    }

    method ResetCharms(level: nat, env: Env) returns (ok: bool)
      modifies this
      ensures (View(), ok) == DoReset(old(View()), level, env)
    {
      var states := Loaded(View(), env);
      var resetCost := ResetCost(level);
      if !HasGold(resetCost) {
        return false;
      }
      var points := charmPoints;
      var refund := GetSpentMajorCharmPoints(states);
      var (minor, max) := Echoes(View(), env);
      if !env.commits {
        return false;
      }
      rows := AllReset(rows);
      minorEchoes, maxMinorEchoes := 0, 0;
      charmPoints := points + refund;
      ok := RemoveGold(resetCost, env);
      if !ok && env.restores {
        rows, minorEchoes, maxMinorEchoes := states, minor, max;
        charmPoints := points;
      }
      cached := None;
    }

    method AssignCharm(id: CharmId, race: RaceId, creature: Creature, premium: bool, env: Env) returns (ok: bool)
      modifies this
      ensures (View(), ok) == DoAssign(old(View()), id, race, creature, premium, env)
    {
      var states := Loaded(View(), env);
      if TierOf(states, id) == 0 {
        return false;
      }
      if creature.Unknown? || !(if CategoryOf(id) == Major then creature.enoughForMajor else creature.enoughForMinor) {
        return false;
      }
      if RaceOf(states, id) == 0 {
        var usedSlots := GetAssignedCharmCount(states);
        var maxSlots := if premium then 6 else 2;
        if usedSlots >= maxSlots {
          return false;
        }
      }
      var taken := IsTaken(states, id, race);
      if taken || !env.commits {
        return false;
      }
      rows := WithRace(rows, id, race);
      cached := None;
      ok := true;
    }

    method RemoveCharm(id: CharmId, level: nat, env: Env) returns (ok: bool)
      modifies this
      ensures (View(), ok) == DoRemove(old(View()), id, level, env)
    {
      var states := Loaded(View(), env);
      if TierOf(states, id) == 0 || RaceOf(states, id) == 0 {
        return false;
      }
      var removeCost := level * 100;
      if !HasGold(removeCost) {
        return false;
      }
      if !env.commits {
        return false;
      }
      rows := WithRace(rows, id, 0);
      ok := RemoveGold(removeCost, env);
      if !ok && env.restores {
        rows := states;
      }
      cached := None;
    }

    method HandleCharmAction(request: Request, env: Env) returns (ok: bool)
      modifies this
      ensures (View(), ok) == Handle(old(View()), request, env)
      ensures inventoryMoney + bankBalance == old(inventoryMoney + bankBalance) - if ok then Cost(request) else 0
    {
      HandleCosts(View(), request, env);
      if !request.Reset? && request.id >= CHARM_COUNT {
        return false;
      }
      match request {
        case Upgrade(id) => ok := UpgradeCharm(id, env);
        case Assign(id, race, creature, premium) => ok := AssignCharm(id, race, creature, premium, env);
        case Remove(id, level) => ok := RemoveCharm(id, level, env);
        case Reset(level) => ok := ResetCharms(level, env);
      }
    }
  }

  // ---------------------------------------------------------------- loops over the unordered states

  lemma {:induction false} SumsAfterRemoval(rows: Rows, id: CharmId, n: nat)
    requires id in rows
    ensures var rest := rows - {id};
            && Spent(rest, CategoryOf(id), n) ==
               Spent(rows, CategoryOf(id), n) - (if id < n then SpentOn(id, rows[id].tier) else 0)
            && (forall c | c != CategoryOf(id) :: Spent(rest, c, n) == Spent(rows, c, n))
            && Assigned(rest, n) ==
               Assigned(rows, n) - (if id < n && rows[id].tier > 0 && rows[id].race > 0 then 1 else 0)
  {
    if n == 0 {
    } else {
      SumsAfterRemoval(rows, id, n - 1);
    }
  }

  /** The order in which the states are visited makes no difference to the points spent. */
  method GetSpentMajorCharmPoints(states: Rows) returns (spent: nat)
    ensures spent == Spent(states, Major, CHARM_COUNT)
  {
    spent := 0;
    var left := states;
    while left.Keys != {}
      invariant spent + Spent(left, Major, CHARM_COUNT) == Spent(states, Major, CHARM_COUNT)
      decreases |left.Keys|
    {
      var charmId :| charmId in left.Keys;
      SumsAfterRemoval(left, charmId, CHARM_COUNT);
      if charmId < CHARM_COUNT && CategoryOf(charmId) == Major && left[charmId].tier != 0 {
        spent := spent + SpentOn(charmId, left[charmId].tier);
      }
      assert (left - {charmId}).Keys == left.Keys - {charmId};
      left := left - {charmId};
    }
    SumsOfNothing(left, CHARM_COUNT);
  }

  method GetAssignedCharmCount(states: Rows) returns (count: nat)
    ensures count == Assigned(states, CHARM_COUNT)
  {
    count := 0;
    var left := states;
    while left.Keys != {}
      invariant count + Assigned(left, CHARM_COUNT) == Assigned(states, CHARM_COUNT)
      decreases |left.Keys|
    {
      var charmId :| charmId in left.Keys;
      SumsAfterRemoval(left, charmId, CHARM_COUNT);
      if charmId < CHARM_COUNT && left[charmId].tier > 0 && left[charmId].race > 0 {
        count := count + 1;
      }
      assert (left - {charmId}).Keys == left.Keys - {charmId};
      left := left - {charmId};
    }
    SumsOfNothing(left, CHARM_COUNT);
  }

  method IsTaken(states: Rows, id: CharmId, race: RaceId) returns (taken: bool)
    ensures taken == Taken(states, id, race)
  {
    var left := states.Keys;
    while left != {}
      invariant left <= states.Keys
      invariant forall other | other in states && other !in left ::
                  !(other != id && states[other].tier != 0 && states[other].race == race
                    && other < CHARM_COUNT && CategoryOf(other) == CategoryOf(id))
      decreases |left|
    {
      var other :| other in left;
      if other != id && states[other].tier != 0 && states[other].race == race {
        if other < CHARM_COUNT && CategoryOf(other) == CategoryOf(id) {
          return true;
        }
      }
      left := left - {other};
    }
    taken := false;
  }
}
